/** The `search` component: its state, the steps `performSearch`, `searchLocal`, `searchRemote` and
    `clearSearch` take on it, and what they promise.

    Each `await` splits an operation in two: the synchronous part runs up to the `await` and reports,
    as a `Pending` value, what it waits for; the environment later delivers the reply to the
    matching continuation. An interleaving of two searches is then a sequence of such steps. The
    `AbortController` is a generation counter: the n-th `searchRemote` call creates controller n and
    aborts every earlier one, so signal `k` is aborted exactly when `k < controller`.

    The step functions on `Snap` are the specification; the `SearchComponent` class implements them
    on its fields. */
module Search {
  import opened Wrappers
  import opened Seqs
  import opened Strings
  import opened Documents
  import opened Tokenizer
  import opened IdSets
  import opened RemoteStrategies

  const MaxResults: nat := 15
  const LocalErrorMessage := "Could not load search results."
  const RemoteErrorMessage := "Search service unavailable."

  // ---------------------------------------------------------------------------------------------
  // Local matching

  /** Every token occurs in the document's lowercased `title content excerpt`. */
  predicate MatchesAll(d: Doc, tokens: seq<string>) {
    forall i :: 0 <= i < |tokens| ==> Contains(Haystack(d), tokens[i])
  }

  function Matcher(tokens: seq<string>): Doc -> bool {
    d => MatchesAll(d, tokens)
  }

  /** `docs.filter(doc => tokens.every(t => text.includes(t))).slice(0, 15)`, and `[]` for no tokens. */
  function LocalResults(docs: seq<Doc>, tokens: seq<string>): seq<Doc> {
    if tokens == [] then [] else Take(Filter(docs, Matcher(tokens)), MaxResults)
  }

  /** Local results are an order-preserving subsequence of the index, every one matches every token,
      there are at most 15, they are the first matches in index order, and when fewer than 15 come
      back no matching document was left out; without tokens there are none. */
  lemma LocalResultsSpec(docs: seq<Doc>, tokens: seq<string>)
    ensures var r := LocalResults(docs, tokens);
      && IsSubseq(r, docs)
      && (forall k :: 0 <= k < |r| ==> MatchesAll(r[k], tokens))
      && |r| <= MaxResults
      && (tokens == [] ==> r == [])
      && (tokens != [] ==> r <= Filter(docs, Matcher(tokens)))
      && (tokens != [] && |r| < MaxResults ==>
            forall k :: 0 <= k < |docs| && MatchesAll(docs[k], tokens) ==> docs[k] in r)
  {
    var r := LocalResults(docs, tokens);
    if tokens != [] {
      var all := Filter(docs, Matcher(tokens));
      FilterIsSubseq(docs, Matcher(tokens));
      PrefixIsSubseq(r, all);
      SubseqTrans(r, all, docs);
      forall k | 0 <= k < |r| ensures MatchesAll(r[k], tokens) {
        assert r[k] == all[k];
        assert Matcher(tokens)(all[k]);
      }
      if |r| < MaxResults {
        assert r == all;
        forall k | 0 <= k < |docs| && MatchesAll(docs[k], tokens) ensures docs[k] in r {
          assert Matcher(tokens)(docs[k]);
        }
      }
    } else {
      assert r == [];
    }
  }

  // ---------------------------------------------------------------------------------------------
  // The component state and its steps

  /** The component's fields (besides the configuration). */
  datatype Snap = Snap(
    query: string,
    results: seq<Doc>,
    docs: seq<Doc>,
    indexLoaded: bool,
    isLoading: bool,
    error: Option<string>,
    controller: nat)

  /** What the component waits for after a step. */
  datatype Pending =
    | Done
    | AwaitIndex(q: string)                           // searchLocal: fetch('/search/index.json')
    | AwaitIds(signal: nat, tokens: seq<string>)      // searchRemote: strategy.fetchIds(tokens, signal)
    | AwaitDocs(signal: nat, ids: seq<Json>)          // searchRemote: strategy.fetchDocs(ids, signal)

  datatype Step = Step(state: Snap, next: Pending)

  /** The local index fetch: `json?.docs ?? []` after an ok response, or a failure (a response that
      is not ok, a rejected fetch, or a body that is not JSON). */
  datatype IndexReply = Loaded(docs: Option<seq<Doc>>) | Failed

  const Initial := Snap("", [], [], false, false, None, 0)

  /** `config?.mode || 'local'`. */
  function ModeOf(configMode: Option<string>): string {
    if configMode.None? || configMode == Some("") then "local" else configMode.value
  }

  predicate HasStrategy(mode: string) {
    mode == "upstash" || mode == "supabase"
  }

  /** The `finally` of `searchRemote`: only a request that was not aborted clears `isLoading`. */
  function Finish(s: Snap, signal: nat): Snap {
    if signal < s.controller then s else s.(isLoading := false)
  }

  /** The `catch` of `searchRemote`, then its `finally`. */
  function Fail(s: Snap, signal: nat, name: string): Snap {
    Finish(if name == AbortError then s else s.(error := Some(RemoteErrorMessage)), signal)
  }

  /** `performSearch(q)` up to its first `await`. */
  function Perform(s: Snap, mode: string, q: string): Step {
    var s1 := s.(error := None);
    if Trim(q) == "" then Step(s1.(results := [], isLoading := false), Done)
    else if mode == "local" then SearchLocal(s1, q)
    else SearchRemote(s1, mode, q)
  }

  /** `searchLocal(q)` up to the index fetch, or to the end when the index is already loaded. */
  function SearchLocal(s: Snap, q: string): Step {
    var s1 := s.(isLoading := true);
    if !s1.indexLoaded then Step(s1, AwaitIndex(q))
    else Step(s1.(results := LocalResults(s1.docs, Tokenize(Some(q))), isLoading := false), Done)
  }

  /** The rest of `searchLocal(q)` once the index fetch settles. */
  function IndexArrived(s: Snap, q: string, reply: IndexReply): Snap {
    match reply
    case Failed => s.(error := Some(LocalErrorMessage), isLoading := false)
    case Loaded(json) =>
      var docs := json.GetOr([]);
      s.(docs := docs, indexLoaded := true, results := LocalResults(docs, Tokenize(Some(q))), isLoading := false)
  }

  /** `searchRemote(q)` up to `fetchIds`: abort the previous controller, start a new one. */
  function SearchRemote(s: Snap, mode: string, q: string): Step {
    var signal := s.controller + 1;
    var s1 := s.(controller := signal, isLoading := true);
    var tokens := Tokenize(Some(q));
    if tokens == [] then Step(Finish(s1.(results := []), signal), Done)
    else if !HasStrategy(mode) then Step(Fail(s1, signal, TypeError), Done)
    else Step(s1, AwaitIds(signal, tokens))
  }

  predicate SomeEmpty(sets: seq<seq<Json>>) {
    exists k :: 0 <= k < |sets| && |sets[k]| == 0
  }

  /** The rest of `searchRemote` once `fetchIds` settles: stop on an empty set, otherwise intersect
      and ask for at most 15 documents. (`Array.from(resultSets[0])` throws on zero sets.) */
  function IdsArrived(s: Snap, signal: nat, reply: Result<seq<seq<Json>>>): Step {
    match reply
    case Err(name) => Step(Fail(s, signal, name), Done)
    case Ok(sets) =>
      if SomeEmpty(sets) then Step(Finish(s.(results := []), signal), Done)
      else if sets == [] then Step(Fail(s, signal, TypeError), Done)
      else
        var common := KeepInEvery(sets[0], sets[1..]);
        if common == [] then Step(Finish(s.(results := []), signal), Done)
        else Step(s, AwaitDocs(signal, Take(common, MaxResults)))
  }

  /** The rest of `searchRemote` once `fetchDocs` settles. */
  function DocsArrived(s: Snap, signal: nat, reply: Result<seq<Doc>>): Snap {
    match reply
    case Err(name) => Fail(s, signal, name)
    case Ok(docs) => Finish(s.(results := docs), signal)
  }

  /** `clearSearch()`. */
  function Clear(s: Snap): Snap {
    s.(query := "", results := [], error := None, isLoading := false)
  }

  /** Assigning `query` (the input is bound to it): Alpine's `$watch` runs `performSearch` when the
      value changes. */
  function Watch(s: Snap, mode: string, q: string): Step {
    if q == s.query then Step(s, Done) else Perform(s.(query := q), mode, q)
  }

  // ---------------------------------------------------------------------------------------------
  // What the steps promise

  /** An empty or whitespace-only query clears the results and `error`, ends loading, and starts no
      search: nothing is fetched and no controller is created or aborted. */
  lemma BlankQueryStartsNothing(s: Snap, mode: string, q: string)
    requires IsBlank(q)
    ensures Perform(s, mode, q) == Step(s.(results := [], isLoading := false, error := None), Done)
  {
    TrimEmptyIffBlank(q);
  }

  /** A non-blank query always resets `error` first; in local mode the index is fetched exactly when
      it is not loaded yet, otherwise the results are computed at once. */
  lemma LocalFetchOnlyUntilLoaded(s: Snap, q: string)
    requires !IsBlank(q)
    ensures var st := Perform(s, "local", q);
      && st.state.controller == s.controller
      && (st.next.AwaitIndex? <==> !s.indexLoaded)
      && (st.next.AwaitIndex? ==> st.state == s.(error := None, isLoading := true) && st.next.q == q)
      && (s.indexLoaded ==>
            && st.next == Done
            && st.state == s.(error := None, isLoading := false, results := LocalResults(s.docs, Tokenize(Some(q)))))
  {
    TrimEmptyIffBlank(q);
  }

  /** A loaded index marks the index loaded for good: no later step ever clears `indexLoaded`, so
      later local searches do not fetch again. A failed fetch leaves `indexLoaded` as it was (false
      the first time), records the local error message, and ends loading. */
  lemma IndexArrivedSpec(s: Snap, q: string, reply: IndexReply)
    ensures reply.Loaded? ==> IndexArrived(s, q, reply).indexLoaded
    ensures reply.Loaded? ==> var t := IndexArrived(s, q, reply);
      t.docs == reply.docs.GetOr([]) && t.results == LocalResults(t.docs, Tokenize(Some(q)))
      && !t.isLoading && t.error == s.error
    ensures reply.Failed? ==>
      IndexArrived(s, q, reply) == s.(error := Some(LocalErrorMessage), isLoading := false)
  {
  }

  /** No step of the component ever unloads the index or turns back the controller counter, so an
      aborted request stays aborted. */
  lemma StepsKeepIndexAndController(s: Snap, mode: string, q: string, signal: nat,
                                     ir: IndexReply, idr: Result<seq<seq<Json>>>, dr: Result<seq<Doc>>)
    ensures var t := Perform(s, mode, q).state;
      t.indexLoaded == s.indexLoaded && s.controller <= t.controller <= s.controller + 1
    ensures var t := IndexArrived(s, q, ir);
      (s.indexLoaded ==> t.indexLoaded) && t.controller == s.controller
    ensures var t := IdsArrived(s, signal, idr).state;
      t.indexLoaded == s.indexLoaded && t.controller == s.controller
    ensures var t := DocsArrived(s, signal, dr);
      t.indexLoaded == s.indexLoaded && t.controller == s.controller
    ensures var t := Clear(s);
      t.indexLoaded == s.indexLoaded && t.controller == s.controller
  {
    PerformKeeps(s, mode, q);
    IndexArrivedKeeps(s, q, ir);
    IdsArrivedKeeps(s, signal, idr);
    DocsArrivedKeeps(s, signal, dr);
  }

  lemma IndexArrivedKeeps(s: Snap, q: string, ir: IndexReply)
    ensures var t := IndexArrived(s, q, ir);
      (s.indexLoaded ==> t.indexLoaded) && t.controller == s.controller
  {
  }

  lemma IdsArrivedKeeps(s: Snap, signal: nat, idr: Result<seq<seq<Json>>>)
    ensures var t := IdsArrived(s, signal, idr).state;
      t.indexLoaded == s.indexLoaded && t.controller == s.controller
  {
  }

  lemma DocsArrivedKeeps(s: Snap, signal: nat, dr: Result<seq<Doc>>)
    ensures var t := DocsArrived(s, signal, dr);
      t.indexLoaded == s.indexLoaded && t.controller == s.controller
  {
  }

  lemma PerformKeeps(s: Snap, mode: string, q: string)
    ensures var t := Perform(s, mode, q).state;
      t.indexLoaded == s.indexLoaded && s.controller <= t.controller <= s.controller + 1
  {
    var s1 := s.(error := None);
    if Trim(q) == "" {
    } else if mode == "local" {
      SearchLocalKeeps(s1, q);
    } else {
      SearchRemoteKeeps(s1, mode, q);
    }
  }

  lemma SearchLocalKeeps(s: Snap, q: string)
    ensures var t := SearchLocal(s, q).state;
      t.indexLoaded == s.indexLoaded && t.controller == s.controller
  {
  }

  lemma SearchRemoteKeeps(s: Snap, mode: string, q: string)
    ensures var t := SearchRemote(s, mode, q).state;
      t.indexLoaded == s.indexLoaded && t.controller == s.controller + 1
  {
  }

  /** A remote search with tokens aborts every earlier request: it creates a controller whose signal
      is newer than every signal handed out before, and waits for `fetchIds` with it; a query without
      tokens ends with no results, and a mode without a strategy fails with the remote message. */
  lemma RemoteStartAborts(s: Snap, mode: string, q: string)
    requires mode != "local" && !IsBlank(q)
    ensures var st := Perform(s, mode, q);
      && st.state.controller == s.controller + 1
      && s.controller < st.state.controller
      && st.state.error == (if Tokenize(Some(q)) != [] && !HasStrategy(mode) then Some(RemoteErrorMessage) else None)
      && (st.next.AwaitIds? <==> Tokenize(Some(q)) != [] && HasStrategy(mode))
      && (st.next.AwaitIds? ==>
            st.next.signal == st.state.controller && st.next.tokens == Tokenize(Some(q)) && st.state.isLoading)
      && (Tokenize(Some(q)) == [] ==> st.state.results == [] && !st.state.isLoading && st.next == Done)
  {
    TrimEmptyIffBlank(q);
  }

  /** A request that was aborted never touches `isLoading` when it settles, whatever the reply. */
  lemma AbortedSettleKeepsLoading(s: Snap, signal: nat, idr: Result<seq<seq<Json>>>, dr: Result<seq<Doc>>)
    requires signal < s.controller
    ensures IdsArrived(s, signal, idr).state.isLoading == s.isLoading
    ensures DocsArrived(s, signal, dr).isLoading == s.isLoading
  {
  }

  /** An `AbortError` never sets `error`; any other error sets the remote message. A request that is
      still current ends loading in either case. */
  lemma RemoteErrors(s: Snap, signal: nat, name: string)
    ensures IdsArrived(s, signal, Err(name)).next == Done
    ensures name == AbortError ==>
      IdsArrived(s, signal, Err(name)).state.error == s.error && DocsArrived(s, signal, Err(name)).error == s.error
    ensures name != AbortError ==>
      IdsArrived(s, signal, Err(name)).state.error == Some(RemoteErrorMessage) &&
      DocsArrived(s, signal, Err(name)).error == Some(RemoteErrorMessage)
    ensures signal >= s.controller ==>
      !IdsArrived(s, signal, Err(name)).state.isLoading && !DocsArrived(s, signal, Err(name)).isLoading
    ensures IdsArrived(s, signal, Err(name)).state.results == s.results
  {
  }

  /** An aborted request that settles with the `AbortError` its fetch rejects with changes nothing,
      in whatever state it settles: so it commutes with every other step. */
  lemma AbortedRequestIsInert(s: Snap, signal: nat)
    requires signal < s.controller
    ensures IdsArrived(s, signal, Err(AbortError)) == Step(s, Done)
    ensures DocsArrived(s, signal, Err(AbortError)) == s
  {
  }

  /** The merge of the id sets: an empty set ends the search with no results and no document fetch;
      otherwise the documents asked for are the ids of the first set that every other set has,
      in the first set's order: all of them when there are at most 15, and exactly the first 15
      otherwise. */
  lemma RemoteMerge(s: Snap, signal: nat, sets: seq<seq<Json>>)
    requires |sets| >= 1 ==> NoDup(sets[0])
    ensures var st := IdsArrived(s, signal, Ok(sets));
      && (SomeEmpty(sets) ==> st.next == Done && st.state == Finish(s.(results := []), signal))
      && (st.next.AwaitDocs? ==>
            && st.state == s
            && st.next.signal == signal
            && 1 <= |st.next.ids| <= MaxResults
            && |st.next.ids| == (if |KeepInEvery(sets[0], sets[1..])| <= MaxResults
                                 then |KeepInEvery(sets[0], sets[1..])| else MaxResults)
            && st.next.ids <= KeepInEvery(sets[0], sets[1..])
            && IsSubseq(st.next.ids, sets[0])
            && NoDup(st.next.ids)
            && forall k, j :: 0 <= k < |st.next.ids| && 0 <= j < |sets| ==> st.next.ids[k] in sets[j])
      && (!SomeEmpty(sets) && |sets| >= 1 && KeepInEvery(sets[0], sets[1..]) != [] ==> st.next.AwaitDocs?)
  {
    var st := IdsArrived(s, signal, Ok(sets));
    if st.next.AwaitDocs? {
      var common := KeepInEvery(sets[0], sets[1..]);
      var ids := st.next.ids;
      CommonIdsMembers(sets);
      PrefixIsSubseq(ids, common);
      SubseqTrans(ids, common, sets[0]);
      assert NoDup(ids) by {
        forall a, b | 0 <= a < b < |ids| ensures ids[a] != ids[b] {
          assert ids[a] == common[a] && ids[b] == common[b];
        }
      }
      forall k, j | 0 <= k < |ids| && 0 <= j < |sets| ensures ids[k] in sets[j] {
        assert ids[k] == common[k];
        assert common[k] in common;
      }
    }
  }

  /** An aborted request's `AbortError` commutes with the settling of any other request: whether it
      arrives before or after, the other request's step produces the same state. */
  lemma AbortedCommutes(t: Snap, aborted: nat, signal: nat, ids: Result<seq<seq<Json>>>)
    requires aborted < t.controller
    ensures var other := IdsArrived(t, signal, ids);
      && IdsArrived(IdsArrived(t, aborted, Err(AbortError)).state, signal, ids) == other
      && IdsArrived(other.state, aborted, Err(AbortError)).state == other.state
  {
    AbortedRequestIsInert(t, aborted);
    var other := IdsArrived(t, signal, ids);
    IdsArrivedKeeps(t, signal, ids);
    AbortedRequestIsInert(other.state, aborted);
  }

  /** Two remote searches A and B, B started while A waits for its ids: B's signal aborts A, and A's
      abort rejection, whether it settles before or after B's ids arrive, leaves exactly the state
      B's own steps produce. */
  lemma SecondSearchWins(s: Snap, mode: string, qa: string, qb: string, idsB: Result<seq<seq<Json>>>)
    requires mode != "local" && !IsBlank(qa) && !IsBlank(qb)
    requires Perform(s, mode, qa).next.AwaitIds?
    ensures var a := Perform(s, mode, qa);
      var b := Perform(a.state, mode, qb);
      && a.next.signal < b.state.controller
      && (b.next.AwaitIds? ==>
            var bFirst := IdsArrived(b.state, b.next.signal, idsB);
            && IdsArrived(IdsArrived(b.state, a.next.signal, Err(AbortError)).state, b.next.signal, idsB) == bFirst
            && IdsArrived(bFirst.state, a.next.signal, Err(AbortError)).state == bFirst.state)
  {
    var a := Perform(s, mode, qa);
    RemoteStartAborts(s, mode, qa);
    var b := Perform(a.state, mode, qb);
    RemoteStartAborts(a.state, mode, qb);
    assert a.next.signal < b.state.controller;
    if b.next.AwaitIds? {
      AbortedCommutes(b.state, a.next.signal, b.next.signal, idsB);
    }
  }

  /** The source does not abort on clearing: `clearSearch` (and a blank query) leave the controller
      alone, so a request still in flight lands its documents afterwards, under an empty query. */
  lemma ClearKeepsRequestAlive(s: Snap, signal: nat, docs: seq<Doc>)
    requires signal == s.controller
    ensures var t := DocsArrived(Clear(s), signal, Ok(docs));
      t.query == "" && t.results == docs && !t.isLoading
    ensures Perform(s, "upstash", "").state.controller == s.controller
  {
    TrimEmptyIffBlank("");
  }

  // ---------------------------------------------------------------------------------------------
  // The component

  class SearchComponent {
    var query: string
    var results: seq<Doc>
    var docs: seq<Doc>
    var indexLoaded: bool
    var isLoading: bool
    var error: Option<string>
    /** The number of `AbortController`s created so far; 0 stands for `abortController: null`. */
    var controller: nat
    const mode: string

    function State(): Snap
      reads this
    {
      Snap(query, results, docs, indexLoaded, isLoading, error, controller)
    }

    /** `Alpine.data('search', config => ({...}))`. */
    constructor (configMode: Option<string>)
      ensures State() == Initial && mode == ModeOf(configMode)
    {
      query, results, docs := "", [], [];
      indexLoaded, isLoading, error := false, false, None;
      controller := 0;
      mode := ModeOf(configMode);
    }

    method PerformSearch(q: string) returns (p: Pending)
      modifies this
      ensures Step(State(), p) == Perform(old(State()), mode, q)
    {
      error := None;
      TrimEmptyIffBlank(q);
      // `q.trim() === ''` holds exactly when `q` is blank.
      if IsBlank(q) {
        BlankQueryStartsNothing(old(State()), mode, q);
        results := [];
        isLoading := false;
        return Done;
      }
      if mode == "local" {
        p := SearchLocalStart(q);
      } else {
        p := SearchRemoteStart(q);
      }
    }

    method SearchLocalStart(q: string) returns (p: Pending)
      modifies this
      ensures Step(State(), p) == SearchLocal(old(State()), q)
    {
      isLoading := true;
      if !indexLoaded {
        return AwaitIndex(q);
      }
      var tokens := Tokenize(Some(q));
      results := LocalResults(docs, tokens);
      isLoading := false;
      return Done;
    }

    method IndexSettled(q: string, reply: IndexReply)
      modifies this
      ensures State() == IndexArrived(old(State()), q, reply)
    {
      if reply.Failed? {
        error := Some(LocalErrorMessage);
      } else {
        docs := reply.docs.GetOr([]);
        indexLoaded := true;
        var tokens := Tokenize(Some(q));
        results := LocalResults(docs, tokens);
      }
      isLoading := false;
    }

    method SearchRemoteStart(q: string) returns (p: Pending)
      modifies this
      ensures Step(State(), p) == SearchRemote(old(State()), mode, q)
    {
      controller := controller + 1;
      var signal := controller;
      isLoading := true;
      var tokens := Tokenize(Some(q));
      if tokens == [] {
        results := [];
        FinishRequest(signal);
        return Done;
      }
      if !HasStrategy(mode) {
        FailRequest(signal, TypeError);
        return Done;
      }
      return AwaitIds(signal, tokens);
    }

    method FinishRequest(signal: nat)
      modifies this
      ensures State() == Finish(old(State()), signal)
    {
      if !(signal < controller) {
        isLoading := false;
      }
    }

    method FailRequest(signal: nat, name: string)
      modifies this
      ensures State() == Fail(old(State()), signal, name)
    {
      if name != AbortError {
        error := Some(RemoteErrorMessage);
      }
      FinishRequest(signal);
    }

    method IdsSettled(signal: nat, reply: Result<seq<seq<Json>>>) returns (p: Pending)
      requires 1 <= signal <= controller
      modifies this
      ensures Step(State(), p) == IdsArrived(old(State()), signal, reply)
    {
      if reply.Err? {
        FailRequest(signal, reply.name);
        return Done;
      }
      var resultSets := reply.value;
      if exists k :: 0 <= k < |resultSets| && |resultSets[k]| == 0 {
        results := [];
        FinishRequest(signal);
        return Done;
      }
      if resultSets == [] {
        FailRequest(signal, TypeError);
        return Done;
      }
      var commonIds := CommonIds(resultSets);
      if commonIds == [] {
        results := [];
        FinishRequest(signal);
        return Done;
      }
      return AwaitDocs(signal, Take(commonIds, MaxResults));
    }

    method DocsSettled(signal: nat, reply: Result<seq<Doc>>)
      requires 1 <= signal <= controller
      modifies this
      ensures State() == DocsArrived(old(State()), signal, reply)
    {
      match reply
      case Err(name) =>
        FailRequest(signal, name);
      case Ok(found) =>
        results := found;
        FinishRequest(signal);
    }

    method ClearSearch()
      modifies this
      ensures State() == Clear(old(State()))
    {
      query := "";
      results := [];
      error := None;
      isLoading := false;
    }

    method SetQuery(q: string) returns (p: Pending)
      modifies this
      ensures Step(State(), p) == Watch(old(State()), mode, q)
    {
      if q == query {
        return Done;
      }
      query := q;
      p := PerformSearch(q);
    }
  }

  /** Two remote searches on one component: B is typed while A waits for its ids, and A's fetch
      rejects with `AbortError` either before (`abortFirst`) or after B's ids arrive. Either way
      the component ends exactly where B's own steps take it, and waits for what B waits for. */
  method TwoRemoteSearches(c: SearchComponent, qa: string, qb: string, idsB: Result<seq<seq<Json>>>, abortFirst: bool)
    returns (pb: Pending)
    requires c.mode != "local" && !IsBlank(qa) && !IsBlank(qb)
    modifies c
    ensures var a := Perform(old(c.State()), c.mode, qa);
      var b := Perform(a.state, c.mode, qb);
      a.next.AwaitIds? && b.next.AwaitIds? ==> Step(c.State(), pb) == IdsArrived(b.state, b.next.signal, idsB)
  {
    ghost var s := c.State();
    var pa := c.PerformSearch(qa);
    ghost var sa := c.State();
    var pending := c.PerformSearch(qb);
    ghost var sb := c.State();
    pb := Done;
    if pa.AwaitIds? && pending.AwaitIds? {
      RemoteStartAborts(s, c.mode, qa);
      RemoteStartAborts(sa, c.mode, qb);
      SecondSearchWins(s, c.mode, qa, qb, idsB);
      if abortFirst {
        var _ := c.IdsSettled(pa.signal, Err(AbortError));
        assert c.State() == sb;
        pb := c.IdsSettled(pending.signal, idsB);
      } else {
        pb := c.IdsSettled(pending.signal, idsB);
        IdsArrivedKeeps(sb, pending.signal, idsB);
        ghost var bFirst := IdsArrived(sb, pending.signal, idsB);
        var _ := c.IdsSettled(pa.signal, Err(AbortError));
        assert c.State() == bFirst.state;
      }
    }
  }
}

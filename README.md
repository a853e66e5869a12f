# Flux theme: search, tag plugins and page widgets in Dafny

This project models the behaviour of the Flux Hexo theme's client-side scripts and one of its build-time scripts, and proves properties of that model:

- **The `search` Alpine component** (`source/js/search.js`).
  - It tokenizes a query.
  - It searches a lazily fetched local index, or a remote store through one of two strategies: Upstash `HSCAN`/`HMGET` pipelines or a Supabase REST table.
  - It intersects the id sets that each token matched, keeping at most 15 ids.
  - It cancels the previous remote request whenever a new one starts.
- **The standalone local search page** (`source/js/local-search.js`).
  - It loads the index once.
  - It filters the index by substring.
  - It shows at most 15 result rows.
- **The palette switcher** (`source/js/palette-switcher.js`).
  - It picks the initial theme key from the URL hash, then local storage, then the site default.
  - It applies a sanitised key to the page attribute, to storage and to the hash.
- **The collapsible sidebar sections** (`source/js/sidebar.js`). Their open/closed state is kept in session storage.
- **The `tabs`/`tab` and `accordions`/`accordion` tag plugins and the code-block filter** (`scripts/markdown-enhancements.js`).
  - Child tags encode their title and body between marker strings.
  - Parent tags split the rendered text back into items.
  - The code-block filter labels each highlighted block with its language.

## How the model is built

- **Pure logic is functions.** Tokenizing, intersecting, decoding replies, encoding and parsing tag markers, and extracting the language are all modelled as functions, each with lemmas that state what it promises.
- **The code-block filter's global regex replace is a scan.** `MarkdownTags.Scan` reads the content left to right into plain characters and matched blocks (an opening tag and its optional caption), resuming after each match as `String.prototype.replace` does. `MarkdownTags.Replace` then calls the callback on each block. The filter's callback is `MarkdownTags.Callback`.
- **State that the scripts update in place is classes.** These are `Search.SearchComponent`, `LocalSearch.LocalSearchPage`, `Palette.PaletteSwitcher`, `Sidebar.SidebarSection` and the browser storage `Storage.KeyValueStore`.
  - Every method is proved equal to a step function on an immutable snapshot (`Snap`, `Page`, `Shown`, `Store`).
  - The properties are proved about those step functions.
- **Loops in the source are `while`/`for` loops with invariants.** These are:
  - the `commonIds` intersection;
  - the `HSCAN` field walk;
  - the Supabase row walk;
  - the chunk loops of `tabs`/`accordions`;
  - the local page's match, display and clear loops.
- **Asynchrony is explicit.**
  - An `async` operation is split at each `await`.
  - The synchronous part returns a `Pending` value that says what it waits for: the index, the ids or the documents.
  - The reply is delivered later, by a separate method.
  - The `AbortController` is a generation counter. The n-th remote search owns signal n, and signal k has been aborted exactly when k is below the current generation.
  - With this, two overlapping searches can be written as a sequence of steps (`Search.TwoRemoteSearches`).

## Model

| member | source | states |
|---|---|---|
| Tokenizer.Tokenize | source/js/search.js:202-204 | every token is a non-empty run of `[a-z0-9]`; a missing or empty text has no tokens |
| Tokenizer.TokensSpellInput | source/js/search.js:203 | the tokens, concatenated, are exactly the lowercased input's letters and digits in order: nothing is invented, reordered or dropped |
| Tokenizer.BlankHasNoTokens | source/js/search.js:203 | a whitespace-only query yields no tokens |
| Tokenizer.TokenizeAtSeparator | source/js/search.js:203 | a character outside `[a-z0-9]` (after lowercasing) splits the input into two independently tokenized halves |
| Tokenizer.TokenizeJoinRoundTrip | source/js/search.js:203 | tokenizing tokens joined by spaces gives back the same tokens |
| Documents.HaystackCoversFields | source/js/search.js:62 | a term found in the lowercased title, content or excerpt is found in the text a document is matched against |
| Search.LocalResultsSpec | source/js/search.js:61-64 | local results are an order-preserving subsequence of the index, each matching every token, at most 15, the first matches in index order, no match missed when fewer than 15; no tokens gives no results |
| Search.BlankQueryStartsNothing | source/js/search.js:20-25 | a blank query clears results, loading and error, starts no request and leaves the controller alone |
| Search.LocalFetchOnlyUntilLoaded | source/js/search.js:40-64 | local mode waits for the index exactly when it is not loaded yet; once loaded, it answers at once with the local results and never touches the controller |
| Search.IndexArrivedSpec | source/js/search.js:44-70 | a loaded index is stored and searched, and loading ends; a failed fetch sets the local error message and ends loading without marking the index loaded |
| Search.StepsKeepIndexAndController | source/js/search.js:19-122 | no step unloads the index; only a remote start increments the controller, and then by exactly one |
| Search.PerformKeeps | source/js/search.js:19-30 | `performSearch` keeps `indexLoaded` and raises the controller by at most one |
| Search.IndexArrivedKeeps | source/js/search.js:44-51 | the index reply never unloads the index and leaves the controller alone |
| Search.IdsArrivedKeeps | source/js/search.js:94-109 | the id reply keeps `indexLoaded` and the controller |
| Search.DocsArrivedKeeps | source/js/search.js:112-121 | the document reply keeps `indexLoaded` and the controller |
| Search.RemoteStartAborts | source/js/search.js:72-94 | a remote search aborts every earlier signal and hands out a fresh one; it waits for ids exactly when there are tokens and the mode names a strategy; an unknown mode sets the remote error; no tokens clears results and loading |
| Search.AbortedSettleKeepsLoading | source/js/search.js:118-120 | a request whose signal was aborted never clears `isLoading` when it settles |
| Search.RemoteErrors | source/js/search.js:113-121 | an `AbortError` leaves `error` untouched, any other failure sets the remote error message, neither changes the results, and the current request's failure ends loading |
| Search.AbortedRequestIsInert | source/js/search.js:113-121 | an aborted request that rejects with `AbortError` changes nothing at all |
| Search.RemoteMerge | source/js/search.js:95-112 | an empty id set gives no results; otherwise the ids sent to `fetchDocs` are the prefix of the intersection that holds all of it when it has at most 15 ids and exactly 15 otherwise: distinct, in the first set's order, each in every set; a non-empty intersection always reaches `fetchDocs` |
| Search.AbortedCommutes | source/js/search.js:113-121 | the aborted request settling before or after another request's reply yields the same state |
| Search.SecondSearchWins | source/js/search.js:73-80 | after two remote searches the first one's signal is aborted, and its `AbortError` settles without effect in either order relative to the second one's reply |
| Search.ClearKeepsRequestAlive | source/js/search.js:32-39 | `clearSearch` does not abort: an in-flight request that then resolves still writes its documents into the cleared component, and a blank query starts no request |
| Search.SearchComponent.constructor | source/js/search.js:2-12 | the initial state; the mode is the configured one or `local` |
| Search.SearchComponent.PerformSearch | source/js/search.js:19-30 | the new fields and the pending continuation are `Perform` of the old fields |
| Search.SearchComponent.SearchLocalStart | source/js/search.js:40-64 | the synchronous part of `searchLocal`, equal to `SearchLocal` |
| Search.SearchComponent.IndexSettled | source/js/search.js:44-70 | the continuation after the index fetch, equal to `IndexArrived` |
| Search.SearchComponent.SearchRemoteStart | source/js/search.js:72-94 | the synchronous part of `searchRemote`, equal to `SearchRemote` |
| Search.SearchComponent.FinishRequest | source/js/search.js:118-120 | the `finally` block: loading ends only for a signal that was not aborted |
| Search.SearchComponent.FailRequest | source/js/search.js:113-121 | the `catch` and `finally` blocks, equal to `Fail` |
| Search.SearchComponent.IdsSettled | source/js/search.js:95-112 | the continuation after `fetchIds`, including the `commonIds` loop, equal to `IdsArrived` |
| Search.SearchComponent.DocsSettled | source/js/search.js:112-121 | the continuation after `fetchDocs`, equal to `DocsArrived` |
| Search.SearchComponent.ClearSearch | source/js/search.js:32-39 | query, results, error and loading are reset; the index, documents and controller are kept |
| Search.SearchComponent.SetQuery | source/js/search.js:17 | assigning the query runs `performSearch` through the watcher, only when the value changes |
| Search.TwoRemoteSearches | source/js/search.js:72-122 | two overlapping remote searches, with the first one's abort settling before or after the second one's ids, end, once the second search's ids arrive, in exactly the state and continuation that reply produces on the second search's own state |
| IdSets.Add | source/js/search.js:146 | `Set.add` keeps the set duplicate-free, keeps what was there and adds exactly the new element |
| IdSets.AddAll | source/js/search.js:146 | adding a list keeps the set duplicate-free, extends it, and holds exactly the old elements and the list's |
| IdSets.KeepInEveryMembers | source/js/search.js:100-103 | the reference intersection holds exactly the first set's ids that every other set has, as a subsequence, without repeats |
| IdSets.KeepInEveryStep | source/js/search.js:103 | filtering by one more set is the intersection with that set added |
| IdSets.CommonIds | source/js/search.js:100-103 | the loop computes the reference intersection |
| IdSets.CommonIdsMembers | source/js/search.js:100-103 | `commonIds` holds exactly the ids present in every result set, in the first set's order, without repeats |
| RemoteStrategies.DecodeHscanReply | source/js/search.js:140-148 | the field walk of one `HSCAN` reply computes `HscanReplyIds` |
| RemoteStrategies.HscanReplyMembers | source/js/search.js:140-148 | a reply without a truthy `result[1]` gives the empty set; otherwise the set is duplicate-free and holds exactly the comma-separated pieces of the odd-indexed fields, or the walk fails with a `TypeError` because some odd field is not a string |
| RemoteStrategies.HscanPiecesMembers | source/js/search.js:145-146 | the pieces collected from position i on are exactly the comma-split pieces of every second field from i, each of which is a string |
| RemoteStrategies.HscanPiecesErr | source/js/search.js:145-146 | the walk fails only with a `TypeError`, and only when some visited field is not a string |
| RemoteStrategies.UpstashFetchIds | source/js/search.js:140-149 | the pipeline reply succeeds exactly when it is an array whose every item decodes; then there is one id set per item, in order; otherwise it fails with a `TypeError` |
| RemoteStrategies.UpstashDocsOrder | source/js/search.js:164 | `HMGET` nulls are dropped while the order is kept; every remaining record is parsed; one unparsable record rejects the whole reply with a `SyntaxError`; a reply without a `result` array is a `TypeError` |
| RemoteStrategies.AddRow | source/js/search.js:181-185 | one row succeeds exactly when it has a string word and, if that word contains some token, an array of ids; otherwise it is a `TypeError` |
| RemoteStrategies.AddRowMembers | source/js/search.js:181-185 | after one row, set i holds its old ids plus the row's ids if the row's word contains token i, and stays duplicate-free |
| RemoteStrategies.AddRowsMembers | source/js/search.js:180-186 | the row walk succeeds exactly when every row is well formed; then set i holds exactly the ids of the rows whose word contains token i, without repeats |
| RemoteStrategies.SupabaseFetchIds | source/js/search.js:177-187 | the row loop computes `SupabaseIdSets` |
| RemoteStrategies.AddRowIds | source/js/search.js:180-185 | one row adds its ids to the set of every token its lowercased word contains, failing with a `TypeError` when a matching row has no id list |
| RemoteStrategies.SupabaseIdSetsMembers | source/js/search.js:177-187 | the reply succeeds exactly when it is an array of well-formed rows; then there is one duplicate-free set per token, holding exactly the ids of the rows whose lowercased word contains that token |
| MarkdownTags.ParseOne | scripts/markdown-enhancements.js:35-49 | one chunk yields the item `Pushed` describes |
| MarkdownTags.ChunkSkipped | scripts/markdown-enhancements.js:38-45 | a chunk is skipped if and only if it has no end marker or no split marker before its end marker |
| MarkdownTags.ChunkRoundTrip | scripts/markdown-enhancements.js:43-49 | a chunk `title SPLIT body END tail` yields the trimmed title and the rendered body |
| MarkdownTags.ParseChunkList | scripts/markdown-enhancements.js:34-50 | the chunk loop computes `ParseChunks` |
| MarkdownTags.ParseItems | scripts/markdown-enhancements.js:29-50 | splitting on the start marker and parsing `chunks[1..]` computes `Items` |
| MarkdownTags.RoundTrip | scripts/markdown-enhancements.js:23-50 | the parent tag recovers, in order, one item per child tag (trimmed, de-quoted title and rendered body), under two conditions: the leading text holds no start marker, not even one that runs into the first child's start marker; and in each child's chunk the first start, end and split markers are the ones its child tag wrote (its body may hold further split markers) |
| MarkdownTags.LeadIgnored | scripts/markdown-enhancements.js:31-34 | text before the first start marker never contributes an item |
| MarkdownTags.BuildTabs | scripts/markdown-enhancements.js:57-63 | button k and panel k carry index k and tab k's title and content |
| MarkdownTags.BuildAccordion | scripts/markdown-enhancements.js:128-142 | entry k carries index k and item k's title and content |
| MarkdownTags.TabsTag | scripts/markdown-enhancements.js:28-93 | the `tabs` tag computes `TabsOutput` |
| MarkdownTags.AccordionsTag | scripts/markdown-enhancements.js:101-173 | the `accordions` tag computes `AccordionsOutput` |
| MarkdownTags.TabsLayout | scripts/markdown-enhancements.js:52-63 | without items the raw content is rendered as Markdown; otherwise there is one button and one panel per item, indexed in order |
| MarkdownTags.AccordionsLayout | scripts/markdown-enhancements.js:123-142 | without items the raw content is rendered as Markdown; otherwise there is one entry per item, indexed in order |
| MarkdownTags.TabsRoundTrip | scripts/markdown-enhancements.js:23-63 | `tab` children inside `tabs` become a tab group with exactly their titles and rendered bodies, in order |
| MarkdownTags.AccordionsRoundTrip | scripts/markdown-enhancements.js:96-142 | `accordion` children inside `accordions` become an accordion group with exactly their titles and rendered bodies, in order |
| MarkdownTags.FindLang | scripts/markdown-enhancements.js:187 | a capture of the class regex is a non-empty run of `[a-zA-Z0-9_-]` |
| MarkdownTags.CodeLang | scripts/markdown-enhancements.js:186-195 | the language is never empty, never `plain`, and made of word characters |
| MarkdownTags.LangLabel | scripts/markdown-enhancements.js:210 | the label has the language's length, is non-empty, and holds word characters and no lower-case letter |
| MarkdownTags.HexoTagLang | scripts/markdown-enhancements.js:186-195 | Hexo's `<figure class="highlight LANG"` yields `LANG`, and `text` for `plain` |
| MarkdownTags.NoHighlightIsCode | scripts/markdown-enhancements.js:186-191 | an opening tag without `highlight` is labelled `code` |
| MarkdownTags.TagRestShape | scripts/markdown-enhancements.js:181 | the opening-tag group `.*?>` ends at the first `>`, with no line terminator before it; there is no match when the text ends or a line terminator comes before any `>` |
| MarkdownTags.CaptionRestShape | scripts/markdown-enhancements.js:181 | the caption's `.*?<\/figcaption>` ends at the first `</figcaption>` in any case, with no line terminator before it |
| MarkdownTags.BlockAtShape | scripts/markdown-enhancements.js:181 | a match is an opening tag (`<figure class="highlight` in any case, up to the first `>`) followed by nothing or by a whole one-line caption |
| MarkdownTags.Scan | scripts/markdown-enhancements.js:181-184 | the pieces the global replace reads spell out exactly the content |
| MarkdownTags.ScanWellFormed | scripts/markdown-enhancements.js:181-184 | every block the scan finds is a match of the regex |
| MarkdownTags.ReplaceBlock | scripts/markdown-enhancements.js:184 | a match is passed to the callback as the whole match and its opening tag, and the replace resumes right after the match |
| MarkdownTags.NoFigureUnchanged | scripts/markdown-enhancements.js:181-184 | content with no `<figure class="highlight` in any case is returned unchanged, whatever the callback |
| MarkdownTags.PlainPrefix | scripts/markdown-enhancements.js:181-184 | text without `<` is kept as it is and the rest of the content is replaced on its own |
| MarkdownTags.BlockLabelled | scripts/markdown-enhancements.js:184-211 | each match is kept and followed by the code-actions container holding the button and the label of that match's own opening tag |
| MarkdownTags.HexoBlockAt | scripts/markdown-enhancements.js:181 | on Hexo's `<figure class="highlight LANG">` the match covers exactly the tag and the caption after it |
| MarkdownTags.HexoBlockLabelled | scripts/markdown-enhancements.js:181-211 | Hexo's block is kept with its caption, followed by the code actions with its own tag's label, and the replace goes on after the caption |
| MarkdownTags.HexoLabel | scripts/markdown-enhancements.js:186-210 | the label of `<figure class="highlight LANG">` is `LANG` in upper case, and `TEXT` for `plain` |
| MarkdownTags.AfterPostRender | scripts/markdown-enhancements.js:176-178 | a post with missing or empty content is returned unchanged |
| MarkdownTags.AfterPostRenderNoFigure | scripts/markdown-enhancements.js:176-215 | content with no highlighted figure is returned unchanged |
| MarkdownTags.AfterPostRenderBlock | scripts/markdown-enhancements.js:176-215 | content that starts with a match comes back with the match kept, the labelled code actions after it, and the rest replaced on its own |
| LocalSearch.DisplayRowSpec | source/js/local-search.js:68-96 | a row shows a non-empty title or else `(Untitled)`, a non-empty URL or else `#`, `Project` exactly for project documents and `Post` otherwise, a present excerpt as it is and a missing one as nothing, and the lock exactly for encrypted documents |
| LocalSearch.RowsOf | source/js/local-search.js:56 | one row per document, in order |
| LocalSearch.MatchingSpec | source/js/local-search.js:45-53 | the matches are the documents, in index order, whose lowercased text contains the lowercased query, and exactly those |
| LocalSearch.EmptyQueryClears | source/js/local-search.js:38-40 | an empty query clears the results and fetches nothing |
| LocalSearch.ShownRows | source/js/local-search.js:37-101 | with the index loaded, the page shows the rows of the first 15 matches (or all of them) and starts no fetch |
| LocalSearch.FetchGuard | source/js/local-search.js:15-18 | a fetch starts exactly when the index is neither loaded nor loading, sets `loading`, and a second call starts nothing |
| LocalSearch.InputBranch | source/js/local-search.js:104-115 | typing fetches exactly when the index is not loaded, nothing is loading and the trimmed value is non-empty; otherwise it searches the trimmed value; a fetch leaves the shown rows untouched |
| LocalSearch.LoadedSpec | source/js/local-search.js:23-26 | the arrived index is stored, the current input is searched, and no later input fetches again |
| LocalSearch.InputWhenLoaded | source/js/local-search.js:104-114 | once the index is loaded, input never fetches again and keeps the loaded documents |
| LocalSearch.StuckAfterFailure | source/js/local-search.js:18-27 | after a failed fetch `loading` stays set, so no later input ever fetches and the index stays unloaded |
| LocalSearch.LocalSearchPage.constructor | source/js/local-search.js:10-12 | empty documents, not loaded, not loading, nothing shown |
| LocalSearch.LocalSearchPage.FetchIndex | source/js/local-search.js:15-21 | the fields and the started flag are `Fetched` of the old fields |
| LocalSearch.LocalSearchPage.ClearResults | source/js/local-search.js:31-34 | the loop removes every shown row and nothing else |
| LocalSearch.LocalSearchPage.Collect | source/js/local-search.js:45-53 | the loop collects `Matching(docs, query)` |
| LocalSearch.LocalSearchPage.Display | source/js/local-search.js:56-100 | the loop appends one row per document after the rows already shown |
| LocalSearch.LocalSearchPage.PerformSearch | source/js/local-search.js:37-101 | the fields and the started flag are `Searched` of the old fields |
| LocalSearch.LocalSearchPage.OnInput | source/js/local-search.js:104-115 | the fields and the started flag are `Input` of the old fields |
| LocalSearch.LocalSearchPage.IndexArrived | source/js/local-search.js:23-26 | the fields become `Loaded` of the old fields |
| Storage.ReadWrite | source/js/palette-switcher.js:20-22 | a write to available storage is read back; other keys are unchanged; unavailable storage reads nothing |
| Storage.KeyValueStore.GetItem | source/js/palette-switcher.js:9 | `getItem` returns the stored value, or nothing when storage is unavailable |
| Storage.KeyValueStore.SetItem | source/js/palette-switcher.js:21 | `setItem` changes the store to `Write` of the old store |
| Palette.Sanitize | source/js/palette-switcher.js:18 | the cleaned key is no longer than the key and holds only `[a-zA-Z0-9_-]` |
| Palette.SanitizeRemovesOnlyOthers | source/js/palette-switcher.js:18 | cleaning keeps, in order, every allowed character and drops only the others |
| Palette.SanitizeFixedIff | source/js/palette-switcher.js:18 | a key is unchanged by cleaning if and only if it is made of allowed characters |
| Palette.SanitizeIdempotent | source/js/palette-switcher.js:18 | cleaning twice is cleaning once |
| Palette.SanitizeAppend | source/js/palette-switcher.js:18 | cleaning distributes over concatenation |
| Palette.InitialKeyPrecedence | source/js/palette-switcher.js:6-9 | a non-empty hash theme wins; otherwise a non-empty stored theme; otherwise the default |
| Palette.AppliedSpec | source/js/palette-switcher.js:15-29 | an empty key changes nothing; otherwise the attribute, the stored theme (when storage is available) and the hash's `theme` become the cleaned key, and other storage keys and hash parameters are unchanged |
| Palette.ApplyThenInit | source/js/palette-switcher.js:5-29 | after applying a key, a reload starts from the cleaned key, or from the default when cleaning leaves nothing |
| Palette.PaletteSwitcher.constructor | source/js/palette-switcher.js:2-4 | the current palette starts as the default key |
| Palette.PaletteSwitcher.Init | source/js/palette-switcher.js:5-14 | the current palette is the initial key by precedence, and the attribute is its cleaned form |
| Palette.PaletteSwitcher.Apply | source/js/palette-switcher.js:15-29 | the page becomes `Applied` of the old page |
| Palette.PaletteSwitcher.Choose | source/js/palette-switcher.js:13 | choosing a palette applies it through the watcher, only when it differs from the current one |
| Sidebar.StorageKeyInjective | source/js/sidebar.js:3 | distinct section ids use distinct storage keys |
| Sidebar.InitialOpenSpec | source/js/sidebar.js:4-5 | a section with nothing stored is open; otherwise it is open exactly when `true` was stored |
| Sidebar.StoredStateRestores | source/js/sidebar.js:3-10 | the state written for a section is the state it starts in next time, and other sections' start states are unchanged |
| Sidebar.SidebarSection.constructor | source/js/sidebar.js:2-8 | the section opens in its stored state under key `flux-sidebar-<id>` |
| Sidebar.SidebarSection.Toggle | source/js/sidebar.js:9-14 | toggling flips `open` and the watcher writes the new state to session storage |
| Sidebar.ToggleTwice | source/js/sidebar.js:9-14 | toggling twice restores `open`, and a reload would start in that same state |

## Left out

- Network and JSON decoding.
  - `fetch`, URL and request building, `res.ok`, `res.json()` and `JSON.parse` are not modelled.
  - Replies arrive as already-decoded `Json` values, or as a `Result` carrying the error name.
  - A per-record parser is passed in as a function.
- The Supabase `fetchDocs` is not modelled: it returns the decoded reply as it is, so the documents are a parameter of `DocsSettled`.
- Real concurrency and the event loop are not modelled. Each `await` is an explicit step, and the environment chooses the order of replies.
- Alpine itself is not modelled.
  - `$watch` is modelled by `SetQuery`, `Choose` and `Toggle`, which call the handler.
  - Focusing `$refs.searchInput` and the clear and focus handling of the local page are left out, because they are DOM effects.
  - `SetQuery` and `Choose` trigger only when the value changes, as Alpine's watcher does.
- DOM output is not modelled.
  - The result list is a sequence of row values, and clearing the container is emptying that sequence.
  - The local page's clear button empties the input and calls `clearResults`. The model has `ClearResults` but not the button or its visibility styling.
  - The tag plugins' HTML is not modelled. Instead, buttons, panels and accordion entries are values that carry their index, title and body, and the Alpine `x-data` attribute strings are left out.
- `renderMd` is an uninterpreted function parameter. Hexo's renderer and its error fallback cannot be seen from here.
- MarkdownTags.AfterPostRender: the copy button's fixed markup (its icons and captions) is the parameter `button` and is not spelled out. The container, the label span, the kept match and where the container is placed are modelled. Case-insensitive matching folds ASCII letters only, which is exact for this pattern.
- The date formatting of local results (`new Date`, `toISOString`) is not modelled, because it is clock and locale code.
- Case mapping covers only ASCII letters. JavaScript's `trim` is modelled by the whitespace set of `Strings.IsSpace`.
- A document's fields (`Documents.Doc`) are strings or absent. A JSON `null` and a missing field are both absent, although JavaScript prints them differently (`null` and `undefined`) where a title is concatenated. Values that are not strings are not modelled.
- JSON numbers are not modelled. `Set` membership is value equality on the decoded `Json`, which approximates JavaScript's SameValueZero on ids.
- The hash is a map from parameter to value. `URLSearchParams` escaping and parameter order are not modelled, and palette keys are strings, not arbitrary values passed through `String(key)`.
- Sidebar.SidebarSection.constructor: requires available session storage, because the source's `sessionStorage.getItem` throws otherwise and no section is created.
- Search.SearchComponent.IdsSettled and Search.SearchComponent.DocsSettled: require a signal that was handed out (1 to the current generation), because replies can only come for requests that were started.
- `source/js/encrypted-post.js`, `source/js/reading-progress.js`, `source/js/main.js` and `source/js/code-copy.js` are not part of this model.

## Where the code and the documented behaviour differ

The model follows the code:

- An Upstash document record that `JSON.parse` rejects rejects the whole search with "Search service unavailable." It is not dropped on its own (`RemoteStrategies.UpstashDocsOrder`).
- An error keeps the previous results. Only the error message changes (`Search.RemoteErrors`).
- `clearSearch` and a blank query do not abort an in-flight remote request. That request can still write its results afterwards (`Search.ClearKeepsRequestAlive`).
- A request that was already aborted does not clear `isLoading`. If its `fetch` had already resolved, it can still write results, because only a rejection is ignored (`Search.AbortedSettleKeepsLoading`, `Search.DocsArrived`).
- The local page never resets `loading` after a failed index fetch, so it never retries (`LocalSearch.StuckAfterFailure`).

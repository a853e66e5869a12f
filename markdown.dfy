/** The Hexo tags of the theme's Markdown enhancements. The child tags `tab` and `accordion` encode
    one block as `START title SPLIT content END` between sentinel markers; the parent tags `tabs` and
    `accordions` split their content at the start markers and parse the blocks back. The code-block
    filter labels each highlighted block with a language taken from its opening tag. Hexo's Markdown
    renderer (`renderMd`) is the opaque function `render`. */
module MarkdownTags {
  import opened Wrappers
  import opened Seqs
  import opened Strings

  // ---------------------------------------------------------------------------------------------
  // Markers and the child tags

  /** The three sentinels of one tag family. */
  datatype Markers = Markers(start: string, split: string, end: string)

  /** `MARKER.TAB_*`. */
  const TabMarkers := Markers("@@FLUX_TAB_HEAD@@", "@@FLUX_TAB_SPLIT@@", "@@FLUX_TAB_FOOT@@")
  /** `MARKER.ACC_*`. */
  const AccMarkers := Markers("@@FLUX_ACC_HEAD@@", "@@FLUX_ACC_SPLIT@@", "@@FLUX_ACC_FOOT@@")

  predicate ValidMarkers(m: Markers) {
    |m.start| > 0 && |m.split| > 0 && |m.end| > 0
  }

  /** The title a child tag stores: `args.join(' ')` with every `"` and `'` removed. */
  function TitleOf(args: seq<string>): string {
    RemoveQuotes(Join(args, " "))
  }

  /** The `tab` child tag (with `TabMarkers`) and the `accordion` child tag (with `AccMarkers`);
      a missing body is the empty string. */
  function Encode(m: Markers, args: seq<string>, content: Option<string>): string {
    m.start + TitleOf(args) + m.split + content.GetOr("") + m.end
  }

  // ---------------------------------------------------------------------------------------------
  // The parent tags' parser

  /** A parsed tab or accordion item; `content` is already rendered. */
  datatype Item = Item(title: string, content: string)

  /** One chunk after a start marker: skipped when it has no end marker, or when the text before the
      end marker has no split marker; otherwise the trimmed text before the first split marker is the
      title, and everything after it, split markers included, is rendered as the content. */
  function ParseChunk(m: Markers, render: string -> string, chunk: string): Option<Item>
    requires ValidMarkers(m)
  {
    match IndexOf(chunk, m.end)
    case None => None
    case Some(endIdx) =>
      var parts := Split(chunk[..endIdx], m.split);
      if |parts| >= 2 then Some(Item(Trim(parts[0]), render(Join(parts[1..], m.split)))) else None
  }

  /** What parsing one chunk pushes: its item, or nothing when it is skipped. */
  function Pushed(m: Markers, render: string -> string, chunk: string): seq<Item>
    requires ValidMarkers(m)
  {
    match ParseChunk(m, render, chunk)
    case Some(item) => [item]
    case None => []
  }

  function ParseChunks(m: Markers, render: string -> string, chunks: seq<string>): seq<Item>
    requires ValidMarkers(m)
  {
    if chunks == [] then [] else Pushed(m, render, chunks[0]) + ParseChunks(m, render, chunks[1..])
  }

  /** The items of a parent tag's content: the chunks after every start marker, parsed in order; the
      text before the first start marker is not looked at. */
  function Items(m: Markers, render: string -> string, raw: string): seq<Item>
    requires ValidMarkers(m)
  {
    ParseChunks(m, render, Split(raw, m.start)[1..])
  }

  lemma {:induction false} ParseChunksSnoc(m: Markers, render: string -> string, chunks: seq<string>, c: string)
    requires ValidMarkers(m)
    ensures ParseChunks(m, render, chunks + [c]) == ParseChunks(m, render, chunks) + Pushed(m, render, c)
  {
    if chunks != [] {
      assert (chunks + [c])[1..] == chunks[1..] + [c];
      ParseChunksSnoc(m, render, chunks[1..], c);
      AppendAssoc(Pushed(m, render, chunks[0]), ParseChunks(m, render, chunks[1..]), Pushed(m, render, c));
    } else {
      assert [c][1..] == [];
    }
  }

  /** The body of the parsing loop for one chunk: what it pushes onto the items. */
  method ParseOne(m: Markers, render: string -> string, chunk: string) returns (pushed: seq<Item>)
    requires ValidMarkers(m)
    ensures pushed == Pushed(m, render, chunk)
  {
    pushed := [];
    var endIdx := IndexOf(chunk, m.end);
    if endIdx.Some? {
      var block := chunk[..endIdx.value];
      var parts := Split(block, m.split);
      if |parts| >= 2 {
        pushed := [Item(Trim(parts[0]), render(Join(parts[1..], m.split)))];
      }
    }
  }

  /** The loop of `tabs` and `accordions` over the chunks after the first: every chunk is parsed
      and its item, if any, pushed. */
  method ParseChunkList(m: Markers, render: string -> string, chunks: seq<string>) returns (items: seq<Item>)
    requires ValidMarkers(m)
    ensures items == ParseChunks(m, render, chunks)
  {
    items := [];
    for i := 0 to |chunks|
      invariant items == ParseChunks(m, render, chunks[..i])
    {
      var pushed := ParseOne(m, render, chunks[i]);
      ParseChunksSnoc(m, render, chunks[..i], chunks[i]);
      TakeSnoc(chunks, i);
      items := items + pushed;
    }
    TakeAll(chunks);
  }

  /** `raw.split(START)` and the parsing loop. */
  method ParseItems(m: Markers, render: string -> string, raw: string) returns (items: seq<Item>)
    requires ValidMarkers(m)
    ensures items == Items(m, render, raw)
  {
    var chunks := Split(raw, m.start);
    items := ParseChunkList(m, render, chunks[1..]);
  }

  /** A chunk is skipped exactly when it has no end marker, or no split marker before its end marker. */
  lemma ChunkSkipped(m: Markers, render: string -> string, chunk: string)
    requires ValidMarkers(m)
    ensures ParseChunk(m, render, chunk).None? <==>
      (IndexOf(chunk, m.end).None? || !Contains(chunk[..IndexOf(chunk, m.end).value], m.split))
  {
    if IndexOf(chunk, m.end).Some? {
      SplitTwoIff(chunk[..IndexOf(chunk, m.end).value], m.split);
    }
  }

  /** A chunk laid out as the child tag writes it, `title SPLIT body END` and any text after, parses
      to the trimmed title and the rendered body, whenever the first split and end markers are the
      ones the child tag wrote. The body may itself contain split markers: they are joined back. */
  lemma ChunkRoundTrip(m: Markers, render: string -> string, t: string, b: string, tail: string)
    requires ValidMarkers(m)
    requires IndexOf(t + m.split + b + m.end, m.end) == Some(|t + m.split + b|)
    requires IndexOf(t + m.split + b, m.split) == Some(|t|)
    ensures ParseChunk(m, render, t + m.split + b + m.end + tail) == Some(Item(Trim(t), render(b)))
  {
    var x := t + m.split + b + m.end;
    IndexOfExtend(x, tail, m.end);
    var chunk := x + tail;
    assert chunk[..|t + m.split + b|] == t + m.split + b;
    SplitAt(t, b, m.split);
    JoinSplit(b, m.split);
    var parts := Split(t + m.split + b, m.split);
    assert parts[1..] == Split(b, m.split);
  }

  // ---------------------------------------------------------------------------------------------
  // Round trip: child tags concatenated inside a parent tag

  /** One child tag inside a parent tag: its arguments, its body, and the text that follows its
      output up to the next child tag (a line break, say). */
  datatype Child = Child(args: seq<string>, content: Option<string>, trailing: string)

  /** The content of a parent tag made of child tags, each followed by its trailing text. */
  function Compose(m: Markers, cs: seq<Child>): string {
    if cs == [] then "" else Encode(m, cs[0].args, cs[0].content) + cs[0].trailing + Compose(m, cs[1..])
  }

  /** What a child contributes after its start marker. */
  function Chunk(m: Markers, c: Child): string {
    TitleOf(c.args) + m.split + c.content.GetOr("") + m.end + c.trailing
  }

  function Chunks(m: Markers, cs: seq<Child>): seq<string> {
    if cs == [] then [] else [Chunk(m, cs[0])] + Chunks(m, cs[1..])
  }

  /** The first start, end and split markers in a child's chunk are the ones its child tag wrote: no
      marker appears inside the title, the body or the trailing text, nor across their edges. (The
      body may contain split markers.) Being free of markers is not enough: a body `FLUX_TAB_HEAD`
      forms a start marker with the `@@` around it. */
  predicate Fits(m: Markers, c: Child) {
    var t, b := TitleOf(c.args), c.content.GetOr("");
    && IndexOf(Chunk(m, c) + m.start, m.start) == Some(|Chunk(m, c)|)
    && IndexOf(t + m.split + b + m.end, m.end) == Some(|t + m.split + b|)
    && IndexOf(t + m.split + b, m.split) == Some(|t|)
  }

  lemma EncodeThenTrailing(m: Markers, c: Child)
    ensures Encode(m, c.args, c.content) + c.trailing == m.start + Chunk(m, c)
  {
  }

  lemma {:induction false} SplitChunks(m: Markers, cs: seq<Child>)
    requires ValidMarkers(m) && cs != []
    requires forall k :: 0 <= k < |cs| ==> Fits(m, cs[k])
    ensures Split(Chunk(m, cs[0]) + Compose(m, cs[1..]), m.start) == Chunks(m, cs)
  {
    var x, rest := Chunk(m, cs[0]), cs[1..];
    assert Fits(m, cs[0]);
    if rest == [] {
      IndexOfPrefixNone(x, m.start, m.start);
      assert x + Compose(m, rest) == x;
    } else {
      EncodeThenTrailing(m, rest[0]);
      var z := Chunk(m, rest[0]) + Compose(m, rest[1..]);
      AppendAssoc(m.start, Chunk(m, rest[0]), Compose(m, rest[1..]));
      assert Compose(m, rest) == m.start + z;
      AppendAssoc(x, m.start, z);
      IndexOfExtend(x + m.start, z, m.start);
      SplitAt(x, z, m.start);
      SplitChunks(m, rest);
    }
  }

  /** The item a child tag should turn into: its trimmed title and its rendered body. */
  function ChildItem(render: string -> string, c: Child): Item {
    Item(Trim(TitleOf(c.args)), render(c.content.GetOr("")))
  }

  function ChildItems(render: string -> string, cs: seq<Child>): seq<Item> {
    MapSeq(cs, (c: Child) => ChildItem(render, c))
  }

  lemma ParseChunksCons(m: Markers, render: string -> string, c: string, rest: seq<string>)
    requires ValidMarkers(m)
    ensures ParseChunks(m, render, [c] + rest) == Pushed(m, render, c) + ParseChunks(m, render, rest)
  {
    assert ([c] + rest)[1..] == rest;
  }

  lemma {:induction false} ParseChunksOfChildren(m: Markers, render: string -> string, cs: seq<Child>)
    requires ValidMarkers(m)
    requires forall k :: 0 <= k < |cs| ==> Fits(m, cs[k])
    ensures ParseChunks(m, render, Chunks(m, cs)) == ChildItems(render, cs)
    ensures var items := ParseChunks(m, render, Chunks(m, cs));
      && |items| == |cs|
      && forall k :: 0 <= k < |cs| ==> items[k] == Item(Trim(TitleOf(cs[k].args)), render(cs[k].content.GetOr("")))
  {
    if cs != [] {
      PushedChild(m, render, cs[0]);
      assert forall k :: 0 <= k < |cs[1..]| ==> Fits(m, cs[1..][k]) by {
        forall k | 0 <= k < |cs[1..]| ensures Fits(m, cs[1..][k]) { assert cs[1..][k] == cs[k + 1]; }
      }
      ParseChunksOfChildren(m, render, cs[1..]);
      ParseChunksCons(m, render, Chunk(m, cs[0]), Chunks(m, cs[1..]));
    }
  }

  lemma PushedChild(m: Markers, render: string -> string, c: Child)
    requires ValidMarkers(m) && Fits(m, c)
    ensures Pushed(m, render, Chunk(m, c)) == [Item(Trim(TitleOf(c.args)), render(c.content.GetOr("")))]
    ensures Pushed(m, render, Chunk(m, c)) == [ChildItem(render, c)]
  {
    var t, b := TitleOf(c.args), c.content.GetOr("");
    ChunkRoundTrip(m, render, t, b, c.trailing);
  }

  /** Child tags concatenated, each with trailing text, after any leading text without a start
      marker, parse back to one item per child, in order: the trimmed encoded title and the rendered
      body. */
  lemma RoundTrip(m: Markers, render: string -> string, lead: string, cs: seq<Child>)
    requires ValidMarkers(m)
    requires IndexOf(lead + m.start, m.start) == Some(|lead|)
    requires forall k :: 0 <= k < |cs| ==> Fits(m, cs[k])
    ensures var items := Items(m, render, lead + Compose(m, cs));
      && |items| == |cs|
      && forall k :: 0 <= k < |cs| ==> items[k] == Item(Trim(TitleOf(cs[k].args)), render(cs[k].content.GetOr("")))
  {
    var raw := lead + Compose(m, cs);
    if cs == [] {
      IndexOfPrefixNone(lead, m.start, m.start);
      assert raw == lead;
    } else {
      EncodeThenTrailing(m, cs[0]);
      var y := Chunk(m, cs[0]) + Compose(m, cs[1..]);
      AppendAssoc(m.start, Chunk(m, cs[0]), Compose(m, cs[1..]));
      AppendAssoc(lead, m.start, y);
      IndexOfExtend(lead + m.start, y, m.start);
      SplitAt(lead, y, m.start);
      SplitChunks(m, cs);
      assert Split(raw, m.start)[1..] == Chunks(m, cs);
    }
    ParseChunksOfChildren(m, render, cs);
  }

  /** Text in front of the first start marker is ignored. */
  lemma LeadIgnored(m: Markers, render: string -> string, lead: string, x: string)
    requires ValidMarkers(m)
    requires IndexOf(lead + m.start, m.start) == Some(|lead|)
    ensures Items(m, render, lead + m.start + x) == Items(m, render, m.start + x)
  {
    IndexOfExtend(lead + m.start, x, m.start);
    SplitAt(lead, x, m.start);
    IndexOfStart(m.start, x);
    assert "" + m.start + x == m.start + x;
    SplitAt("", x, m.start);
  }

  // ---------------------------------------------------------------------------------------------
  // The parent tags' output

  /** The i-th tab button, showing tab i's title. */
  datatype NavButton = NavButton(index: nat, title: string)
  /** The i-th tab panel, holding tab i's rendered content. */
  datatype Panel = Panel(index: nat, content: string)
  /** The i-th accordion item: its header shows the title, its body the rendered content. */
  datatype AccordionEntry = AccordionEntry(index: nat, title: string, content: string)

  /** What a parent tag returns: the rendered content itself when no block parsed, otherwise the
      widget, its elements counted and ordered rather than spelt out as markup. */
  datatype TagOutput =
    | Markdown(html: string)
    | TabGroup(nav: seq<NavButton>, panels: seq<Panel>)
    | AccordionGroup(entries: seq<AccordionEntry>)

  /** The `reduce` building the tab navigation and the panels, the first tab numbered `from`. */
  function BuildTabs(items: seq<Item>, from: nat): (r: (seq<NavButton>, seq<Panel>))
    ensures |r.0| == |items| && |r.1| == |items|
    ensures forall k :: 0 <= k < |items| ==> r.0[k] == NavButton(from + k, items[k].title)
    ensures forall k :: 0 <= k < |items| ==> r.1[k] == Panel(from + k, items[k].content)
  {
    if items == [] then ([], [])
    else
      var rest := BuildTabs(items[1..], from + 1);
      ([NavButton(from, items[0].title)] + rest.0, [Panel(from, items[0].content)] + rest.1)
  }

  /** The `reduce` building the accordion items, the first numbered `from`. */
  function BuildAccordion(items: seq<Item>, from: nat): (r: seq<AccordionEntry>)
    ensures |r| == |items|
    ensures forall k :: 0 <= k < |items| ==> r[k] == AccordionEntry(from + k, items[k].title, items[k].content)
  {
    if items == [] then []
    else [AccordionEntry(from, items[0].title, items[0].content)] + BuildAccordion(items[1..], from + 1)
  }

  /** What the `tabs` tag returns for its content. */
  function TabsOutput(content: Option<string>, render: string -> string): TagOutput {
    var raw := content.GetOr("");
    var items := Items(TabMarkers, render, raw);
    if items == [] then Markdown(render(raw))
    else var built := BuildTabs(items, 0); TabGroup(built.0, built.1)
  }

  /** What the `accordions` tag returns for its content. */
  function AccordionsOutput(content: Option<string>, render: string -> string): TagOutput {
    var raw := content.GetOr("");
    var items := Items(AccMarkers, render, raw);
    if items == [] then Markdown(render(raw)) else AccordionGroup(BuildAccordion(items, 0))
  }

  /** The `tabs` tag. */
  method TabsTag(content: Option<string>, render: string -> string) returns (out: TagOutput)
    ensures out == TabsOutput(content, render)
  {
    var raw := content.GetOr("");
    var tabs := ParseItems(TabMarkers, render, raw);
    if |tabs| == 0 {
      return Markdown(render(raw));
    }
    var built := BuildTabs(tabs, 0);
    out := TabGroup(built.0, built.1);
  }

  /** The `accordions` tag. */
  method AccordionsTag(content: Option<string>, render: string -> string) returns (out: TagOutput)
    ensures out == AccordionsOutput(content, render)
  {
    var raw := content.GetOr("");
    var items := ParseItems(AccMarkers, render, raw);
    if |items| == 0 {
      return Markdown(render(raw));
    }
    out := AccordionGroup(BuildAccordion(items, 0));
  }

  /** `tabs` falls back to the rendered content exactly when no block parses; otherwise it has one
      button and one panel per parsed tab, the i-th of each carrying index i and tab i's title and
      content. */
  lemma TabsLayout(content: Option<string>, render: string -> string)
    ensures var items := Items(TabMarkers, render, content.GetOr(""));
      match TabsOutput(content, render)
      case Markdown(html) => items == [] && html == render(content.GetOr(""))
      case TabGroup(nav, panels) =>
        && items != [] && |nav| == |items| && |panels| == |items|
        && (forall k :: 0 <= k < |items| ==> nav[k] == NavButton(k, items[k].title))
        && (forall k :: 0 <= k < |items| ==> panels[k] == Panel(k, items[k].content))
      case AccordionGroup(_) => false
  {
  }

  /** `accordions` falls back to the rendered content exactly when no block parses; otherwise it has
      one entry per parsed item, in order, the i-th carrying index i. */
  lemma AccordionsLayout(content: Option<string>, render: string -> string)
    ensures var items := Items(AccMarkers, render, content.GetOr(""));
      match AccordionsOutput(content, render)
      case Markdown(html) => items == [] && html == render(content.GetOr(""))
      case AccordionGroup(entries) =>
        && items != [] && |entries| == |items|
        && forall k :: 0 <= k < |items| ==> entries[k] == AccordionEntry(k, items[k].title, items[k].content)
      case TabGroup(_, _) => false
  {
  }

  /** Tab tags inside a `tabs` tag come back as tabs: one button and one panel per child, in order,
      the button showing the trimmed encoded title and the panel the rendered body. */
  lemma TabsRoundTrip(render: string -> string, lead: string, cs: seq<Child>)
    requires cs != []
    requires IndexOf(lead + TabMarkers.start, TabMarkers.start) == Some(|lead|)
    requires forall k :: 0 <= k < |cs| ==> Fits(TabMarkers, cs[k])
    ensures var out := TabsOutput(Some(lead + Compose(TabMarkers, cs)), render);
      && out.TabGroup? && |out.nav| == |cs| && |out.panels| == |cs|
      && (forall k :: 0 <= k < |cs| ==> out.nav[k] == NavButton(k, Trim(TitleOf(cs[k].args))))
      && (forall k :: 0 <= k < |cs| ==> out.panels[k] == Panel(k, render(cs[k].content.GetOr(""))))
  {
    RoundTrip(TabMarkers, render, lead, cs);
  }

  /** Accordion tags inside an `accordions` tag come back as one entry per child, in order. */
  lemma AccordionsRoundTrip(render: string -> string, lead: string, cs: seq<Child>)
    requires cs != []
    requires IndexOf(lead + AccMarkers.start, AccMarkers.start) == Some(|lead|)
    requires forall k :: 0 <= k < |cs| ==> Fits(AccMarkers, cs[k])
    ensures var out := AccordionsOutput(Some(lead + Compose(AccMarkers, cs)), render);
      && out.AccordionGroup? && |out.entries| == |cs|
      && forall k :: 0 <= k < |cs| ==>
           out.entries[k] == AccordionEntry(k, Trim(TitleOf(cs[k].args)), render(cs[k].content.GetOr("")))
  {
    RoundTrip(AccMarkers, render, lead, cs);
  }

  // ---------------------------------------------------------------------------------------------
  // The code-block filter's language label

  /** `[a-zA-Z0-9\-_]`. */
  predicate IsWordChar(c: char) {
    ('a' <= c <= 'z') || ('A' <= c <= 'Z') || ('0' <= c <= '9') || c == '-' || c == '_'
  }

  /** The length of the leading run of `\s` characters. */
  function SpaceRun(s: string): (n: nat)
    ensures n <= |s|
    ensures forall i :: 0 <= i < n ==> IsSpace(s[i])
    ensures n == |s| || !IsSpace(s[n])
  {
    if s != [] && IsSpace(s[0]) then 1 + SpaceRun(s[1..]) else 0
  }

  /** The leading run of word characters. */
  function WordRun(s: string): (w: string)
    ensures w <= s
    ensures forall i :: 0 <= i < |w| ==> IsWordChar(w[i])
    ensures |w| == |s| || !IsWordChar(s[|w|])
  {
    if s != [] && IsWordChar(s[0]) then [s[0]] + WordRun(s[1..]) else []
  }

  /** The word the class regex `class=["']highlight\s+([a-zA-Z0-9\-_]+)` captures when its match
      starts at position `i` of the opening tag, if it matches there. */
  function LangAt(tag: string, i: nat): Option<string> {
    if OccursAt(tag, "class=", i) && i + 6 < |tag| && (tag[i + 6] == '"' || tag[i + 6] == '\'')
       && OccursAt(tag, "highlight", i + 7)
    then
      var rest := tag[i + 16..];
      var n := SpaceRun(rest);
      var w := WordRun(rest[n..]);
      if n >= 1 && |w| >= 1 then Some(w) else None
    else None
  }

  /** `exec`: the capture of the leftmost match at or after position `i`. */
  function FindLang(tag: string, i: nat): (r: Option<string>)
    ensures r.Some? ==> |r.value| >= 1 && forall k :: 0 <= k < |r.value| ==> IsWordChar(r.value[k])
    decreases |tag| - i
  {
    if i >= |tag| then None
    else if LangAt(tag, i).Some? then LangAt(tag, i)
    else FindLang(tag, i + 1)
  }

  /** The language of a highlighted code block: the captured word, `code` when the class regex does
      not match, and `text` for `plain`. It is never empty, never `plain`, and made of word
      characters. */
  function CodeLang(openTag: string): (lang: string)
    ensures |lang| >= 1 && lang != "plain"
    ensures forall k :: 0 <= k < |lang| ==> IsWordChar(lang[k])
  {
    var found := FindLang(openTag, 0);
    var lang := if found.Some? then found.value else "code";
    if lang == "plain" then "text" else lang
  }

  /** The label shown in the code actions: `lang.toUpperCase()`. It is never empty, has the
      language's length, is made of word characters, and holds no lower-case letter. */
  function LangLabel(openTag: string): (shown: string)
    ensures |shown| == |CodeLang(openTag)| >= 1
    ensures forall k :: 0 <= k < |shown| ==> IsWordChar(shown[k]) && !('a' <= shown[k] <= 'z')
  {
    Upper(CodeLang(openTag))
  }

  lemma {:induction false} FindLangSkip(tag: string, i: nat, k: nat)
    requires i <= k <= |tag|
    requires forall j :: i <= j < k ==> LangAt(tag, j).None?
    ensures FindLang(tag, i) == FindLang(tag, k)
    decreases k - i
  {
    if i < k {
      FindLangSkip(tag, i + 1, k);
    }
  }

  lemma {:induction false} WordRunOf(w: string, post: string)
    requires forall k :: 0 <= k < |w| ==> IsWordChar(w[k])
    requires post == [] || !IsWordChar(post[0])
    ensures WordRun(w + post) == w
  {
    if w == [] {
      assert w + post == post;
    } else {
      assert (w + post)[0] == w[0];
      assert (w + post)[1..] == w[1..] + post;
      WordRunOf(w[1..], post);
      assert w == [w[0]] + w[1..];
    }
  }

  /** The opening tag Hexo writes for a highlighted block, `<figure class="highlight LANG"...`,
      yields `LANG`, or `text` for `plain`. */
  lemma HexoTagLang(w: string, post: string)
    requires |w| >= 1 && forall k :: 0 <= k < |w| ==> IsWordChar(w[k])
    requires post == [] || !IsWordChar(post[0])
    ensures CodeLang("<figure class=\"highlight " + w + post) == (if w == "plain" then "text" else w)
  {
    var tag := "<figure class=\"highlight " + w + post;
    HexoTagNoEarlierMatch(tag, w + post);
    FindLangSkip(tag, 0, 8);
    HexoTagMatch(w, post);
  }

  lemma HexoTagNoEarlierMatch(tag: string, rest: string)
    requires tag == "<figure class=\"highlight " + rest
    ensures forall j :: 0 <= j < 8 ==> LangAt(tag, j).None?
  {
    var head := "<figure class=\"highlight ";
    forall j | 0 <= j < 8 ensures LangAt(tag, j).None? {
      assert tag[j] == head[j];
    }
  }

  lemma HexoTagMatch(w: string, post: string)
    requires |w| >= 1 && forall k :: 0 <= k < |w| ==> IsWordChar(w[k])
    requires post == [] || !IsWordChar(post[0])
    ensures LangAt("<figure class=\"highlight " + w + post, 8) == Some(w)
  {
    var head := "<figure class=\"highlight ";
    var tag := head + w + post;
    assert |head| == 25;
    assert tag == head + (w + post);
    assert head[8..14] == "class=" && head[15..24] == "highlight";
    PrefixSlice(head, w + post, 8, 14);
    PrefixSlice(head, w + post, 15, 24);
    assert tag[14] == '"';
    var rest := tag[24..];
    assert rest == " " + (w + post);
    assert !IsSpace(rest[1]) by { assert rest[1] == w[0]; }
    assert SpaceRun(rest) == 1;
    assert rest[1..] == w + post;
    WordRunOf(w, post);
  }

  lemma PrefixSlice(a: string, b: string, i: nat, j: nat)
    requires i <= j <= |a|
    ensures (a + b)[i..j] == a[i..j]
  {
  }

  /** An opening tag without `highlight` in it is labelled `code`. */
  lemma NoHighlightIsCode(openTag: string)
    requires !Contains(openTag, "highlight")
    ensures CodeLang(openTag) == "code"
  {
    ContainsIff(openTag, "highlight");
    forall j | 0 <= j < |openTag| ensures LangAt(openTag, j).None? {
      assert !OccursAt(openTag, "highlight", j + 7);
    }
    FindLangSkip(openTag, 0, |openTag|);
  }

  // ---------------------------------------------------------------------------------------------
  // The code-block filter: `content.replace(/(<figure class="highlight.*?>)(?:<figcaption>.*?<\/figcaption>)?/gi, ...)`

  /** The characters `.` does not match without the `s` flag. */
  predicate IsLineTerminator(c: char) {
    c == '\n' || c == '\r' || c == '\U{2028}' || c == '\U{2029}'
  }

  /** `x` and `y` are equal under the `i` flag. Every pattern character here is ASCII, and a
      non-ASCII character never folds to an ASCII one, so folding the ASCII letters is enough. */
  predicate FoldEq(x: string, y: string)
    decreases |x|
  {
    |x| == |y| && (x == [] || (UpperChar(x[0]) == UpperChar(y[0]) && FoldEq(x[1..], y[1..])))
  }

  lemma {:induction false} FoldEqSelf(x: string)
    ensures FoldEq(x, x)
    decreases |x|
  {
    if x != [] {
      FoldEqSelf(x[1..]);
    }
  }

  /** `p` occurs at position `i` of `s` under the `i` flag. */
  predicate FoldedAt(s: string, i: nat, p: string) {
    i + |p| <= |s| && FoldEq(s[i..i + |p|], p)
  }

  /** Whether a pattern occurs depends only on the characters it covers. */
  lemma FoldedAtSame(x: string, i: nat, y: string, j: nat, p: string)
    requires i + |p| <= |x| && j + |p| <= |y| && x[i..i + |p|] == y[j..j + |p|]
    ensures FoldedAt(x, i, p) <==> FoldedAt(y, j, p)
  {
  }

  const FigureOpen := "<figure class=\"highlight"
  const CaptionOpen := "<figcaption>"
  const CaptionClose := "</figcaption>"

  /** `.*?>`: the length through the first `>`, or nothing when a line terminator or the end of the
      text comes first. */
  function TagRest(s: string): (r: Option<nat>)
    ensures r.Some? ==> 1 <= r.value <= |s|
    decreases |s|
  {
    if s == [] then None
    else if s[0] == '>' then Some(1)
    else if IsLineTerminator(s[0]) then None
    else
      var r := TagRest(s[1..]);
      if r.Some? then Some(r.value + 1) else None
  }

  /** `TagRest` stops at the first `>`, passing no line terminator, and finds nothing exactly when a
      line terminator comes before every `>`. */
  lemma {:induction false} TagRestShape(s: string)
    ensures TagRest(s).Some? ==> s[TagRest(s).value - 1] == '>'
    ensures TagRest(s).Some? ==>
      forall j :: 0 <= j < TagRest(s).value - 1 ==> s[j] != '>' && !IsLineTerminator(s[j])
    ensures TagRest(s).None? ==>
      forall e :: 0 <= e < |s| && s[e] == '>' ==> exists j :: 0 <= j < e && IsLineTerminator(s[j])
    decreases |s|
  {
    if s != [] && s[0] != '>' && !IsLineTerminator(s[0]) {
      TagRestShape(s[1..]);
      forall e | 0 < e < |s| ensures s[e] == s[1..][e - 1] {
      }
      if TagRest(s).None? {
        forall e | 0 <= e < |s| && s[e] == '>' ensures exists j :: 0 <= j < e && IsLineTerminator(s[j]) {
          var j :| 0 <= j < e - 1 && IsLineTerminator(s[1..][j]);
          assert IsLineTerminator(s[j + 1]);
        }
      }
    }
  }

  /** `.*?<\/figcaption>`: the length through the first closing tag, or nothing when a line
      terminator or the end of the text comes first. */
  function CaptionRest(s: string): (r: Option<nat>)
    ensures r.Some? ==> |CaptionClose| <= r.value <= |s|
    decreases |s|
  {
    if FoldedAt(s, 0, CaptionClose) then Some(|CaptionClose|)
    else if s == [] || IsLineTerminator(s[0]) then None
    else
      var r := CaptionRest(s[1..]);
      if r.Some? then Some(r.value + 1) else None
  }

  /** `CaptionRest` ends with the first closing tag and passes no line terminator. */
  lemma CaptionRestShape(s: string)
    requires CaptionRest(s).Some?
    ensures FoldedAt(s, CaptionRest(s).value - |CaptionClose|, CaptionClose)
    ensures forall j :: 0 <= j < CaptionRest(s).value - |CaptionClose| ==>
      !IsLineTerminator(s[j]) && !FoldedAt(s, j, CaptionClose)
  {
    CaptionRestEnds(s);
    CaptionRestFirst(s);
  }

  lemma {:induction false} CaptionRestEnds(s: string)
    requires CaptionRest(s).Some?
    ensures FoldedAt(s, CaptionRest(s).value - |CaptionClose|, CaptionClose)
    decreases |s|
  {
    if !FoldedAt(s, 0, CaptionClose) {
      var t := s[1..];
      var r := CaptionRest(t).value;
      var cl := |CaptionClose|;
      CaptionRestEnds(t);
      assert t[r - cl..r] == s[r - cl + 1..r + 1];
      FoldedAtSame(t, r - cl, s, r - cl + 1, CaptionClose);
    }
  }

  lemma {:induction false} CaptionRestFirst(s: string)
    requires CaptionRest(s).Some?
    ensures forall j :: 0 <= j < CaptionRest(s).value - |CaptionClose| ==>
      !IsLineTerminator(s[j]) && !FoldedAt(s, j, CaptionClose)
    decreases |s|
  {
    if !FoldedAt(s, 0, CaptionClose) {
      var t := s[1..];
      var r := CaptionRest(t).value;
      var cl := |CaptionClose|;
      assert CaptionRest(s).value == r + 1;
      CaptionRestFirst(t);
      forall j | 1 <= j < r + 1 - cl ensures !IsLineTerminator(s[j]) && !FoldedAt(s, j, CaptionClose) {
        CaptionShiftOne(s, j);
      }
    }
  }

  lemma CaptionShiftOne(s: string, j: nat)
    requires 1 <= j && j + |CaptionClose| <= |s|
    ensures s[j] == s[1..][j - 1]
    ensures FoldedAt(s, j, CaptionClose) <==> FoldedAt(s[1..], j - 1, CaptionClose)
  {
    var cl := |CaptionClose|;
    assert s[1..][j - 1..j - 1 + cl] == s[j..j + cl];
    FoldedAtSame(s[1..], j - 1, s, j, CaptionClose);
  }

  /** `(?:<figcaption>.*?<\/figcaption>)?`: the length of the caption that follows an opening tag,
      `0` when there is none. */
  function CaptionLen(s: string): (n: nat)
    ensures n <= |s|
  {
    if FoldedAt(s, 0, CaptionOpen) then
      var r := CaptionRest(s[|CaptionOpen|..]);
      if r.Some? then |CaptionOpen| + r.value else 0
    else 0
  }

  /** One match of the regex at the start of `s`: the length of the opening tag (the capture
      `openTag`) and of the whole match. */
  function BlockAt(s: string): (r: Option<(nat, nat)>)
    ensures r.Some? ==> |FigureOpen| < r.value.0 <= r.value.1 <= |s|
  {
    if !FoldedAt(s, 0, FigureOpen) then None
    else
      var t := TagRest(s[|FigureOpen|..]);
      if t.None? then None
      else
        var open := |FigureOpen| + t.value;
        Some((open, open + CaptionLen(s[open..])))
  }

  /** The text as the global replace sees it: plain characters, and matched blocks (an opening tag
      followed by its optional caption). */
  datatype Piece = Plain(c: char) | Block(openTag: string, caption: string)

  /** What the regex's first group matches: `<figure class="highlight` in any case, then the
      shortest run up to a `>`, without line terminators. */
  predicate IsOpeningTag(t: string) {
    && |FigureOpen| < |t| && FoldedAt(t, 0, FigureOpen) && t[|t| - 1] == '>'
    && forall j :: |FigureOpen| <= j < |t| - 1 ==> t[j] != '>' && !IsLineTerminator(t[j])
  }

  /** What the optional caption group matches: nothing, or `<figcaption>` and the shortest run up to
      the first `</figcaption>`, without line terminators. */
  predicate IsCaption(c: string) {
    || c == []
    || (&& |CaptionOpen| + |CaptionClose| <= |c| && FoldedAt(c, 0, CaptionOpen)
        && FoldedAt(c, |c| - |CaptionClose|, CaptionClose)
        && forall j :: |CaptionOpen| <= j < |c| - |CaptionClose| ==>
             !IsLineTerminator(c[j]) && !FoldedAt(c, j, CaptionClose))
  }

  /** A block is what the regex matches; a plain character is anything. */
  predicate WellFormed(p: Piece) {
    p.Block? ==> IsOpeningTag(p.openTag) && IsCaption(p.caption)
  }

  /** The text one piece was read from. */
  function PieceSource(p: Piece): string {
    if p.Plain? then [p.c] else p.openTag + p.caption
  }

  /** The text the pieces were read from. */
  function Source(ps: seq<Piece>): string {
    if ps == [] then [] else PieceSource(ps[0]) + Source(ps[1..])
  }

  lemma SourceCons(p: Piece, ps: seq<Piece>)
    ensures Source([p] + ps) == PieceSource(p) + Source(ps)
  {
    assert ([p] + ps)[1..] == ps;
  }

  lemma WellFormedCons(p: Piece, ps: seq<Piece>)
    requires WellFormed(p) && forall k :: 0 <= k < |ps| ==> WellFormed(ps[k])
    ensures forall k :: 0 <= k < |[p] + ps| ==> WellFormed(([p] + ps)[k])
  {
    forall k | 0 <= k < |[p] + ps| ensures WellFormed(([p] + ps)[k]) {
      if k > 0 {
        assert ([p] + ps)[k] == ps[k - 1];
      }
    }
  }

  /** The replace scans left to right; a match resumes the scan after it, a position without a match
      keeps its character. The pieces spell out the text, and every block is a match. */
  function Scan(s: string): (ps: seq<Piece>)
    ensures Source(ps) == s
    decreases |s|
  {
    if s == [] then []
    else
      var b := BlockAt(s);
      if b.Some? then
        var t, m := b.value.0, b.value.1;
        var p := Block(s[..t], s[t..m]);
        var rest := Scan(s[m..]);
        BlockAtShape(s);
        SourceCons(p, rest);
        SplitTwice(s, t, m);
        [p] + rest
      else
        var p := Plain(s[0]);
        var rest := Scan(s[1..]);
        SourceCons(p, rest);
        assert [s[0]] + s[1..] == s;
        [p] + rest
  }

  /** Every block the scan finds is a match of the regex. */
  lemma {:induction false} ScanWellFormed(s: string)
    ensures forall k :: 0 <= k < |Scan(s)| ==> WellFormed(Scan(s)[k])
    decreases |s|
  {
    if s != [] {
      var b := BlockAt(s);
      if b.Some? {
        var t, m := b.value.0, b.value.1;
        BlockAtShape(s);
        ScanWellFormed(s[m..]);
        WellFormedCons(Block(s[..t], s[t..m]), Scan(s[m..]));
      } else {
        ScanWellFormed(s[1..]);
        WellFormedCons(Plain(s[0]), Scan(s[1..]));
      }
    }
  }

  lemma SplitTwice(s: string, t: nat, m: nat)
    requires t <= m <= |s|
    ensures s[..t] + s[t..m] + s[m..] == s
  {
  }

  lemma BlockAtShape(s: string)
    requires BlockAt(s).Some?
    ensures IsOpeningTag(s[..BlockAt(s).value.0])
    ensures IsCaption(s[BlockAt(s).value.0..BlockAt(s).value.1])
  {
    var t, m := BlockAt(s).value.0, BlockAt(s).value.1;
    OpeningTagShape(s);
    CaptionShape(s[t..]);
    assert s[t..m] == s[t..][..m - t];
  }

  lemma OpeningTagShape(s: string)
    requires BlockAt(s).Some?
    ensures IsOpeningTag(s[..BlockAt(s).value.0])
  {
    var fo := |FigureOpen|;
    var rest := s[fo..];
    var r := TagRest(rest).value;
    var tag := s[..fo + r];
    TagRestShape(rest);
    assert tag[0..fo] == s[0..fo];
    FoldedAtSame(tag, 0, s, 0, FigureOpen);
    forall j | fo <= j < |tag| - 1 ensures tag[j] != '>' && !IsLineTerminator(tag[j]) {
      assert tag[j] == rest[j - fo];
    }
    assert tag[|tag| - 1] == rest[r - 1];
  }

  lemma CaptionShape(s: string)
    ensures IsCaption(s[..CaptionLen(s)])
  {
    var n := CaptionLen(s);
    if n == 0 {
      assert s[..0] == [];
    } else {
      var o, cl := |CaptionOpen|, |CaptionClose|;
      var rest := s[o..];
      var r := CaptionRest(rest).value;
      var c := s[..n];
      assert n == o + r;
      CaptionRestShape(rest);
      assert c[0..o] == s[0..o];
      FoldedAtSame(c, 0, s, 0, CaptionOpen);
      SubSlice(s, n, n - cl, n);
      DropSlice(s, o, r - cl, r);
      FoldedAtSame(c, n - cl, rest, r - cl, CaptionClose);
      forall j | o <= j < n - cl ensures !IsLineTerminator(c[j]) && !FoldedAt(c, j, CaptionClose) {
        assert c[j] == rest[j - o];
        SubSlice(s, n, j, j + cl);
        DropSlice(s, o, j - o, j - o + cl);
        FoldedAtSame(c, j, rest, j - o, CaptionClose);
      }
    }
  }

  lemma SubSlice(s: string, n: nat, a: nat, b: nat)
    requires a <= b <= n <= |s|
    ensures s[..n][a..b] == s[a..b]
  {
  }

  lemma DropSlice(s: string, o: nat, a: nat, b: nat)
    requires o <= |s| && a <= b <= |s| - o
    ensures s[o..][a..b] == s[o + a..o + b]
  {
  }

  /** The global replace with the callback `f`, called as JavaScript calls it, with the whole match
      and the captured opening tag. */
  function Replaced(ps: seq<Piece>, f: (string, string) -> string): string {
    if ps == [] then []
    else
      (if ps[0].Plain? then [ps[0].c] else f(ps[0].openTag + ps[0].caption, ps[0].openTag))
      + Replaced(ps[1..], f)
  }

  function Replace(s: string, f: (string, string) -> string): string {
    Replaced(Scan(s), f)
  }

  lemma ReplacedCons(p: Piece, ps: seq<Piece>, f: (string, string) -> string)
    ensures Replaced([p] + ps, f) == Replaced([p], f) + Replaced(ps, f)
  {
    assert ([p] + ps)[1..] == ps;
    assert [p][1..] == [];
  }

  /** A match goes through the callback, and the replace goes on after it. */
  lemma ReplaceBlock(s: string, f: (string, string) -> string)
    requires BlockAt(s).Some?
    ensures var t, m := BlockAt(s).value.0, BlockAt(s).value.1;
      Replace(s, f) == f(s[..m], s[..t]) + Replace(s[m..], f)
  {
    var t, m := BlockAt(s).value.0, BlockAt(s).value.1;
    assert Scan(s) == [Block(s[..t], s[t..m])] + Scan(s[m..]);
    ReplacedCons(Block(s[..t], s[t..m]), Scan(s[m..]), f);
    assert s[..t] + s[t..m] == s[..m];
  }

  /** No `<figure class="highlight` in any case. */
  predicate NoFigure(s: string) {
    forall k :: 0 <= k <= |s| ==> !FoldedAt(s, k, FigureOpen)
  }

  /** Text without a highlighted figure is returned unchanged, whatever the callback. */
  lemma {:induction false} NoFigureUnchanged(s: string, f: (string, string) -> string)
    requires NoFigure(s)
    ensures Replace(s, f) == s
    decreases |s|
  {
    if s != [] {
      var t := s[1..];
      assert NoFigure(t) by {
        forall k | 0 <= k <= |t| ensures !FoldedAt(t, k, FigureOpen) {
          if k + |FigureOpen| <= |t| {
            assert t[k..k + |FigureOpen|] == s[k + 1..k + 1 + |FigureOpen|];
            FoldedAtSame(t, k, s, k + 1, FigureOpen);
          }
        }
      }
      assert !FoldedAt(s, 0, FigureOpen);
      NoFigureUnchanged(t, f);
      ReplacedCons(Plain(s[0]), Scan(t), f);
      assert [s[0]] + t == s;
    }
  }

  /** Every match starts with `<`: text without one passes through, and the rest is replaced on its
      own. */
  lemma {:induction false} PlainPrefix(a: string, b: string, f: (string, string) -> string)
    requires forall k :: 0 <= k < |a| ==> a[k] != '<'
    ensures Replace(a + b, f) == a + Replace(b, f)
    decreases |a|
  {
    if a != [] {
      var s := a + b;
      calc {
        Replace(s, f);
      == { assert s[0] == a[0] && s[1..] == a[1..] + b; ReplacePlain(s, f); }
        [a[0]] + Replace(a[1..] + b, f);
      == { PlainPrefix(a[1..], b, f); }
        [a[0]] + (a[1..] + Replace(b, f));
      == { ConsAssoc(a[0], a[1..], Replace(b, f)); assert [a[0]] + a[1..] == a; }
        a + Replace(b, f);
      }
    } else {
      assert a + b == b;
    }
  }

  lemma ConsAssoc(c: char, x: string, y: string)
    ensures [c] + (x + y) == ([c] + x) + y
  {
  }

  /** A character other than `<` starts no match and is kept. */
  lemma ReplacePlain(s: string, f: (string, string) -> string)
    requires s != [] && s[0] != '<'
    ensures Replace(s, f) == [s[0]] + Replace(s[1..], f)
  {
    assert !FoldedAt(s, 0, FigureOpen) by {
      if |FigureOpen| <= |s| {
        assert s[0..|FigureOpen|][0] == s[0];
      }
    }
    ReplacedCons(Plain(s[0]), Scan(s[1..]), f);
  }


  /** The container with the copy button `button` and the language label. */
  function CodeActions(button: string, shown: string): string {
    "\n        <div class=\"code-actions\">\n            " + button
    + "\n            <span class=\"code-lang\">" + shown + "</span>\n        </div>"
  }

  /** The filter's callback: the match, then the code actions labelled with the language of the
      block's own opening tag. */
  function Callback(button: string): (string, string) -> string {
    (whole, openTag) => whole + CodeActions(button, LangLabel(openTag))
  }

  /** The replace the filter runs, with `button` as the copy button's markup. */
  function Highlighted(s: string, button: string): string {
    Replace(s, Callback(button))
  }

  /** A block as Hexo writes it, `<figure class="highlight LANG">`, is kept with its caption and
      labelled with `LANG` in upper case (`TEXT` for `plain`); the replace goes on after the
      caption. */
  lemma HexoBlockLabelled(w: string, post: string, button: string)
    requires |w| >= 1 && forall k :: 0 <= k < |w| ==> IsWordChar(w[k])
    ensures var tag := "<figure class=\"highlight " + w + "\">";
      var n := CaptionLen(post);
      Highlighted(tag + post, button)
        == tag + post[..n] + CodeActions(button, LangLabel(tag)) + Highlighted(post[n..], button)
  {
    var tag := "<figure class=\"highlight " + w + "\">";
    HexoBlockAt(w, post);
    LabelledAfter(tag, post, CaptionLen(post), button);
  }

  /** `BlockLabelled` for a match made of `tag` and the first `n` characters after it. */
  lemma LabelledAfter(tag: string, post: string, n: nat, button: string)
    requires n <= |post| && BlockAt(tag + post) == Some((|tag|, |tag| + n))
    ensures Highlighted(tag + post, button)
      == tag + post[..n] + CodeActions(button, LangLabel(tag)) + Highlighted(post[n..], button)
  {
    ReplaceAfter(tag, post, n, Callback(button));
    CallbackApplied(button, tag + post[..n], tag);
  }

  lemma ReplaceAfter(tag: string, post: string, n: nat, f: (string, string) -> string)
    requires n <= |post| && BlockAt(tag + post) == Some((|tag|, |tag| + n))
    ensures Replace(tag + post, f) == f(tag + post[..n], tag) + Replace(post[n..], f)
  {
    ReplaceBlock(tag + post, f);
    ConcatSlices(tag, post, n);
  }

  lemma ConcatSlices(a: string, b: string, n: nat)
    requires n <= |b|
    ensures (a + b)[..|a|] == a && (a + b)[..|a| + n] == a + b[..n] && (a + b)[|a| + n..] == b[n..]
  {
  }

  /** Each match is kept and followed by the code actions labelled with the language of its own
      opening tag; the replace goes on after the match. */
  lemma BlockLabelled(s: string, button: string)
    requires BlockAt(s).Some?
    ensures var (t, m) := BlockAt(s).value;
      Highlighted(s, button)
        == s[..m] + CodeActions(button, LangLabel(s[..t])) + Highlighted(s[m..], button)
  {
    var (t, m) := BlockAt(s).value;
    ReplaceBlock(s, Callback(button));
    CallbackApplied(button, s[..m], s[..t]);
  }

  /** The label of Hexo's opening tag is its language in upper case, `TEXT` for `plain`. */
  lemma HexoLabel(w: string)
    requires |w| >= 1 && forall k :: 0 <= k < |w| ==> IsWordChar(w[k])
    ensures LangLabel("<figure class=\"highlight " + w + "\">") == Upper(if w == "plain" then "text" else w)
  {
    HexoTagLang(w, "\">");
  }

  lemma CallbackApplied(button: string, whole: string, openTag: string)
    ensures Callback(button)(whole, openTag) == whole + CodeActions(button, LangLabel(openTag))
  {
  }

  /** The match on Hexo's opening tag covers the tag and the caption after it. */
  lemma HexoBlockAt(w: string, post: string)
    requires |w| >= 1 && forall k :: 0 <= k < |w| ==> IsWordChar(w[k])
    ensures var tag := "<figure class=\"highlight " + w + "\">";
      BlockAt(tag + post) == Some((|tag|, |tag| + CaptionLen(post)))
  {
    var tag := "<figure class=\"highlight " + w + "\">";
    HexoFigure(w, post);
    HexoTagRest(w, post);
    BlockAtTag(tag + post, |w| + 3);
    assert (tag + post)[|tag|..] == post;
  }

  lemma BlockAtTag(s: string, k: nat)
    requires FoldedAt(s, 0, FigureOpen) && TagRest(s[|FigureOpen|..]) == Some(k)
    ensures BlockAt(s) == Some((|FigureOpen| + k, |FigureOpen| + k + CaptionLen(s[|FigureOpen| + k..])))
  {
  }

  lemma HexoFigure(w: string, post: string)
    ensures FoldedAt("<figure class=\"highlight " + w + "\">" + post, 0, FigureOpen)
  {
    var s := "<figure class=\"highlight " + w + "\">" + post;
    assert s[0..|FigureOpen|] == FigureOpen;
    FoldEqSelf(FigureOpen);
  }

  lemma HexoTagRest(w: string, post: string)
    requires |w| >= 1 && forall k :: 0 <= k < |w| ==> IsWordChar(w[k])
    ensures TagRest(("<figure class=\"highlight " + w + "\">" + post)[|FigureOpen|..]) == Some(|w| + 3)
  {
    var s := "<figure class=\"highlight " + w + "\">" + post;
    var x := " " + w + "\"";
    forall k | 0 <= k < |x| ensures x[k] != '>' && !IsLineTerminator(x[k]) {
      if 0 < k < |x| - 1 {
        assert x[k] == w[k - 1];
      }
    }
    assert s[|FigureOpen|..] == x + ">" + post;
    TagRestWord(x, post);
  }

  lemma {:induction false} TagRestWord(x: string, post: string)
    requires forall k :: 0 <= k < |x| ==> x[k] != '>' && !IsLineTerminator(x[k])
    ensures TagRest(x + ">" + post) == Some(|x| + 1)
    decreases |x|
  {
    if x == [] {
      assert (x + ">" + post)[0] == '>';
    } else {
      assert (x + ">" + post)[0] == x[0];
      assert (x + ">" + post)[1..] == x[1..] + ">" + post;
      TagRestWord(x[1..], post);
    }
  }

  /** The `after_post_render` filter, with `button` as the copy button's markup: a post whose
      content is missing or empty is returned as it is; otherwise its content goes through the
      replace. */
  function AfterPostRender(content: Option<string>, button: string): (r: Option<string>)
    ensures content.None? ==> r.None?
    ensures content.Some? ==> r.Some? && (content.value == "" ==> r.value == "")
  {
    if content.None? || content.value == "" then content
    else Some(Highlighted(content.value, button))
  }

  /** Content without a highlighted figure comes back unchanged. */
  lemma AfterPostRenderNoFigure(content: Option<string>, button: string)
    requires content.Some? && NoFigure(content.value)
    ensures AfterPostRender(content, button) == content
  {
    if content.value != "" {
      NoFigureUnchanged(content.value, Callback(button));
    }
  }

  /** Content that starts with a match: the match is kept and followed by the code actions
      labelled with the language of its own opening tag, and the replace goes on after it. */
  lemma AfterPostRenderBlock(s: string, button: string)
    requires BlockAt(s).Some?
    ensures var (t, m) := BlockAt(s).value;
      AfterPostRender(Some(s), button)
        == Some(s[..m] + CodeActions(button, LangLabel(s[..t])) + Highlighted(s[m..], button))
  {
    BlockLabelled(s, button);
  }
}

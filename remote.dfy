/** The two remote search back ends of the search component (`getRemoteStrategy`): the decoders that
    turn an Upstash or Supabase reply, already parsed from JSON, into one id set per token and into
    the documents to show. The requests themselves are not modelled: a decoder receives the reply. */
module RemoteStrategies {
  import opened Wrappers
  import opened Seqs
  import opened Strings
  import opened IdSets
  import opened Documents

  /** A parsed JSON value. Numbers are integers here; see the README. */
  datatype Json =
    | JNull
    | JBool(b: bool)
    | JNum(n: int)
    | JStr(s: string)
    | JArr(items: seq<Json>)
    | JObj(props: map<string, Json>)

  /** JavaScript truthiness (`Boolean(v)`); `None` is `undefined`. */
  predicate Truthy(v: Option<Json>) {
    match v
    case None => false
    case Some(JNull) => false
    case Some(JBool(b)) => b
    case Some(JNum(n)) => n != 0
    case Some(JStr(s)) => s != ""
    case Some(_) => true
  }

  predicate IsTruthy(v: Json) {
    Truthy(Some(v))
  }

  /** `v.key` for a key that no array, string, number or boolean carries as its own property:
      only an object can answer, anything else gives `undefined`. (`null.key` throws; callers
      check for `JNull` first.) */
  function Field(v: Json, key: string): Option<Json> {
    match v
    case JObj(props) => if key in props then Some(props[key]) else None
    case _ => None
  }

  /** The ids a decoder produces, as JSON strings. */
  function Strs(xs: seq<string>): (r: seq<Json>)
    ensures |r| == |xs| && forall k :: 0 <= k < |xs| ==> r[k] == JStr(xs[k])
  {
    seq(|xs|, k requires 0 <= k < |xs| => JStr(xs[k]))
  }

  // ---------------------------------------------------------------------------------------------
  // Upstash: one HSCAN reply per token, `{result: [cursor, [field, value, field, value, ...]]}`

  /** What `fields[i]` indexes: the elements of an array, the one-character strings of a string,
      nothing for any other value (its `length` is `undefined`, so the loop does not run). */
  function Entries(fields: Json): (es: seq<Json>)
    ensures fields.JArr? ==> es == fields.items
    ensures fields.JStr? ==> |es| == |fields.s|
    ensures !fields.JArr? && !fields.JStr? ==> es == []
  {
    match fields
    case JArr(items) => items
    case JStr(s) => seq(|s|, k requires 0 <= k < |s| => JStr([s[k]]))
    case _ => []
  }

  /** `resultData[1]` when `resultData && Array.isArray(resultData) && resultData[1]` holds. */
  function HscanFields(item: Json): (f: Option<Json>)
    ensures f.Some? ==> IsTruthy(f.value)
  {
    match Field(item, "result")
    case Some(JArr(xs)) => if |xs| > 1 && IsTruthy(xs[1]) then Some(xs[1]) else None
    case _ => None
  }

  /** The comma-split pieces of the entries at positions `i`, `i + 2`, `i + 4`, ..., or the
      `TypeError` of calling `split` on an entry that is not a string. */
  function HscanPieces(entries: seq<Json>, i: nat): Result<seq<string>>
    decreases |entries| - i
  {
    if i >= |entries| then Ok([])
    else match entries[i]
      case JStr(v) => Prefixed(Split(v, ","), HscanPieces(entries, i + 2))
      case _ => Err(TypeError)
  }

  function Prefixed(done: seq<string>, r: Result<seq<string>>): Result<seq<string>> {
    match r
    case Ok(rest) => Ok(done + rest)
    case Err(e) => Err(e)
  }

  lemma PrefixedNil(r: Result<seq<string>>)
    ensures Prefixed([], r) == r
  {
    if r.Ok? {
      assert [] + r.value == r.value;
    }
  }

  lemma PrefixedTwice(a: seq<string>, b: seq<string>, r: Result<seq<string>>)
    ensures Prefixed(a, Prefixed(b, r)) == Prefixed(a + b, r)
  {
    if r.Ok? {
      assert a + (b + r.value) == a + b + r.value;
    }
  }

  /** The id set one `res.map(item => ...)` callback returns. */
  function HscanReplyIds(item: Json): Result<seq<Json>> {
    if item.JNull? then Err(TypeError)
    else match HscanFields(item)
      case None => Ok([])
      case Some(f) =>
        match HscanPieces(Entries(f), 1)
        case Ok(pieces) => Ok(FromSeq(Strs(pieces)))
        case Err(e) => Err(e)
  }

  lemma {:induction false} AddAllAppend<T(!new)>(s: seq<T>, a: seq<T>, b: seq<T>)
    ensures AddAll(AddAll(s, a), b) == AddAll(s, a + b)
    decreases |a|
  {
    if a != [] {
      assert (a + b)[0] == a[0];
      assert (a + b)[1..] == a[1..] + b;
      AddAllAppend(Add(s, a[0]), a[1..], b);
    } else {
      assert a + b == b;
    }
  }

  lemma StrsAppend(a: seq<string>, b: seq<string>)
    ensures Strs(a + b) == Strs(a) + Strs(b)
  {
  }

  /** The Upstash per-reply loop: `for (i = 1; i < fields.length; i += 2)` adds the comma-split
      ids of every value entry to a fresh set. */
  method DecodeHscanReply(item: Json) returns (r: Result<seq<Json>>)
    ensures r == HscanReplyIds(item)
  {
    if item.JNull? {
      return Err(TypeError);
    }
    var idSet: seq<Json> := [];
    var fields := HscanFields(item);
    if fields.Some? {
      var entries := Entries(fields.value);
      var i := 1;
      ghost var done: seq<string> := [];
      PrefixedNil(HscanPieces(entries, 1));
      while i < |entries|
        invariant idSet == FromSeq(Strs(done))
        invariant HscanPieces(entries, 1) == Prefixed(done, HscanPieces(entries, i))
        decreases |entries| - i
      {
        if !entries[i].JStr? {
          return Err(TypeError);
        }
        var ids := Split(entries[i].s, ",");
        assert HscanPieces(entries, i) == Prefixed(ids, HscanPieces(entries, i + 2));
        AddAllAppend([], Strs(done), Strs(ids));
        StrsAppend(done, ids);
        PrefixedTwice(done, ids, HscanPieces(entries, i + 2));
        idSet := AddAll(idSet, Strs(ids));
        done := done + ids;
        i := i + 2;
      }
      assert done + [] == done;
    }
    return Ok(idSet);
  }

  /** Two positions apart keeps the parity: `k - i` is even exactly when `k - (i + 2)` is. */
  lemma EvenStep(k: int, i: int)
    ensures (k - i) % 2 == 0 <==> (k - (i + 2)) % 2 == 0
  {
  }

  /** `x` is a comma-separated piece of a string entry at `i`, `i + 2`, ... */
  predicate PieceFrom(entries: seq<Json>, i: nat, x: string) {
    exists k :: i <= k < |entries| && (k - i) % 2 == 0 && entries[k].JStr? && x in Split(entries[k].s, ",")
  }

  lemma PieceFromStep(entries: seq<Json>, i: nat, x: string)
    requires i < |entries| && entries[i].JStr?
    ensures PieceFrom(entries, i, x) <==> x in Split(entries[i].s, ",") || PieceFrom(entries, i + 2, x)
  {
    if PieceFrom(entries, i + 2, x) {
      var k :| i + 2 <= k < |entries| && (k - (i + 2)) % 2 == 0 && entries[k].JStr? && x in Split(entries[k].s, ",");
      EvenStep(k, i);
    }
    if PieceFrom(entries, i, x) {
      var k :| i <= k < |entries| && (k - i) % 2 == 0 && entries[k].JStr? && x in Split(entries[k].s, ",");
      if k != i {
        EvenStep(k, i);
        assert PieceFrom(entries, i + 2, x);
      }
    }
  }

  /** The pieces come from exactly the string entries at `i`, `i + 2`, ...: every piece of their
      comma-splits, and nothing else. */
  lemma {:induction false} HscanPiecesMembers(entries: seq<Json>, i: nat)
    requires HscanPieces(entries, i).Ok?
    ensures forall x :: x in HscanPieces(entries, i).value <==> PieceFrom(entries, i, x)
    ensures forall k :: i <= k < |entries| && (k - i) % 2 == 0 ==> entries[k].JStr?
    decreases |entries| - i
  {
    if i < |entries| {
      HscanPiecesMembers(entries, i + 2);
      assert HscanPieces(entries, i).value == Split(entries[i].s, ",") + HscanPieces(entries, i + 2).value;
      forall x ensures x in HscanPieces(entries, i).value <==> PieceFrom(entries, i, x) {
        PieceFromStep(entries, i, x);
      }
      forall k | i <= k < |entries| && (k - i) % 2 == 0 ensures entries[k].JStr? {
        if k != i {
          EvenStep(k, i);
        }
      }
    } else {
      forall x ensures !PieceFrom(entries, i, x) {
      }
    }
  }

  /** `x` is one of the comma-separated pieces of a string entry at an odd position. */
  predicate OddPiece(entries: seq<Json>, x: string) {
    exists k :: 1 <= k < |entries| && k % 2 == 1 && entries[k].JStr? && x in Split(entries[k].s, ",")
  }

  lemma StrsMembers(pieces: seq<string>)
    ensures forall k :: 0 <= k < |FromSeq(Strs(pieces))| ==> FromSeq(Strs(pieces))[k].JStr?
    ensures forall x :: JStr(x) in FromSeq(Strs(pieces)) <==> x in pieces
  {
    forall x ensures JStr(x) in Strs(pieces) <==> x in pieces {
      if JStr(x) in Strs(pieces) {
        var k :| 0 <= k < |pieces| && Strs(pieces)[k] == JStr(x);
      }
      if x in pieces {
        var k :| 0 <= k < |pieces| && pieces[k] == x;
        assert Strs(pieces)[k] == JStr(x);
      }
    }
    forall k | 0 <= k < |FromSeq(Strs(pieces))| ensures FromSeq(Strs(pieces))[k].JStr? {
      var y := FromSeq(Strs(pieces))[k];
      assert y in Strs(pieces);
    }
  }

  /** One non-null Upstash reply decodes to the set of comma-split ids of the entries at odd
      positions of `result[1]`, all strings and without repeats; a reply without an array `result`
      whose second element is truthy gives the empty set; a non-string value entry throws a
      `TypeError`. */
  lemma HscanReplyMembers(item: Json)
    requires !item.JNull?
    ensures HscanFields(item).None? ==> HscanReplyIds(item) == Ok([])
    ensures HscanFields(item).Some? ==>
      var entries := Entries(HscanFields(item).value);
      match HscanReplyIds(item)
      case Ok(ids) =>
        && NoDup(ids)
        && (forall k :: 0 <= k < |ids| ==> ids[k].JStr?)
        && (forall x :: JStr(x) in ids <==> OddPiece(entries, x))
      case Err(e) =>
        e == TypeError && exists k :: 1 <= k < |entries| && k % 2 == 1 && !entries[k].JStr?
  {
    if HscanFields(item).Some? {
      var entries := Entries(HscanFields(item).value);
      match HscanPieces(entries, 1)
      case Ok(pieces) =>
        HscanPiecesOdd(entries, pieces);
        StrsMembers(pieces);
      case Err(_) =>
        HscanPiecesErr(entries, 1);
        var k :| 1 <= k < |entries| && (k - 1) % 2 == 0 && !entries[k].JStr?;
        assert k % 2 == 1;
    }
  }

  lemma OddIff(k: int)
    ensures k % 2 == 1 <==> (k - 1) % 2 == 0
  {
  }

  lemma HscanPiecesOdd(entries: seq<Json>, pieces: seq<string>)
    requires HscanPieces(entries, 1) == Ok(pieces)
    ensures forall x :: x in pieces <==> OddPiece(entries, x)
  {
    HscanPiecesMembers(entries, 1);
    forall x ensures x in pieces <==> OddPiece(entries, x) {
      if x in pieces {
        var k :| 1 <= k < |entries| && (k - 1) % 2 == 0 && entries[k].JStr? && x in Split(entries[k].s, ",");
        OddIff(k);
      }
      if OddPiece(entries, x) {
        var k :| 1 <= k < |entries| && k % 2 == 1 && entries[k].JStr? && x in Split(entries[k].s, ",");
        OddIff(k);
      }
    }
  }

  lemma {:induction false} HscanPiecesErr(entries: seq<Json>, i: nat)
    requires HscanPieces(entries, i).Err?
    ensures HscanPieces(entries, i) == Err(TypeError)
    ensures exists k :: i <= k < |entries| && (k - i) % 2 == 0 && !entries[k].JStr?
    decreases |entries| - i
  {
    if entries[i].JStr? {
      HscanPiecesErr(entries, i + 2);
      var k :| i + 2 <= k < |entries| && (k - (i + 2)) % 2 == 0 && !entries[k].JStr?;
      assert (k - i) % 2 == 0;
    } else {
      assert (i - i) % 2 == 0;
    }
  }

  /** `fetchIds` for Upstash: `res.map(...)` over the pipeline replies, one id set per reply in
      reply order; a reply that is not an array (`res.map` is not a function) or any failing item
      throws a `TypeError`. */
  method UpstashFetchIds(res: Json) returns (r: Result<seq<seq<Json>>>)
    ensures r.Ok? <==> res.JArr? && forall k :: 0 <= k < |res.items| ==> HscanReplyIds(res.items[k]).Ok?
    ensures r.Ok? ==> (|r.value| == |res.items| &&
      forall k :: 0 <= k < |res.items| ==> r.value[k] == HscanReplyIds(res.items[k]).value)
    ensures r.Err? ==> r == Err(TypeError)
  {
    if !res.JArr? {
      return Err(TypeError);
    }
    var items := res.items;
    var sets: seq<seq<Json>> := [];
    var k := 0;
    while k < |items|
      invariant 0 <= k <= |items| && |sets| == k
      invariant forall j :: 0 <= j < k ==> HscanReplyIds(items[j]).Ok? && sets[j] == HscanReplyIds(items[j]).value
    {
      var one := DecodeHscanReply(items[k]);
      if one.Err? {
        if !items[k].JNull? {
          HscanReplyMembers(items[k]);
        }
        return Err(TypeError);
      }
      sets := sets + [one.value];
      k := k + 1;
    }
    return Ok(sets);
  }

  /** `fetchDocs` for Upstash: `res.result.filter(Boolean).map(s => JSON.parse(s))`. `parse` stands
      for `JSON.parse` followed by reading the value as a document; a `None` from it is the
      `SyntaxError` that rejects the whole call. */
  function UpstashDocs(res: Json, parse: Json -> Option<Doc>): Result<seq<Doc>> {
    match Field(res, "result")
    case Some(JArr(xs)) => ParseAll(Filter(xs, IsTruthy), parse)
    case _ => Err(TypeError)
  }

  function ParseAll(xs: seq<Json>, parse: Json -> Option<Doc>): (r: Result<seq<Doc>>)
    ensures r.Ok? <==> forall k :: 0 <= k < |xs| ==> parse(xs[k]).Some?
    ensures r.Ok? ==> |r.value| == |xs| && forall k :: 0 <= k < |xs| ==> r.value[k] == parse(xs[k]).value
    ensures r.Err? ==> r == Err(SyntaxError)
  {
    if xs == [] then Ok([])
    else match parse(xs[0])
      case None => Err(SyntaxError)
      case Some(d) =>
        match ParseAll(xs[1..], parse)
        case Ok(ds) => Ok([d] + ds)
        case Err(e) => Err(e)
  }

  /** The documents are the parsed truthy entries of `result`, in order; a falsy entry (`null`,
      `""`, ...) is dropped; a `res` without an array `result` throws a `TypeError`. */
  lemma UpstashDocsOrder(res: Json, parse: Json -> Option<Doc>)
    ensures !(Field(res, "result").Some? && Field(res, "result").value.JArr?) ==> UpstashDocs(res, parse) == Err(TypeError)
    ensures Field(res, "result").Some? && Field(res, "result").value.JArr? ==>
      var kept := Filter(Field(res, "result").value.items, IsTruthy);
      && IsSubseq(kept, Field(res, "result").value.items)
      && (forall k :: 0 <= k < |kept| ==> IsTruthy(kept[k]))
      && (forall k :: 0 <= k < |Field(res, "result").value.items| && IsTruthy(Field(res, "result").value.items[k]) ==>
            Field(res, "result").value.items[k] in kept)
      && match UpstashDocs(res, parse)
         case Ok(docs) => |docs| == |kept| && forall k :: 0 <= k < |kept| ==> docs[k] == parse(kept[k]).value
         case Err(e) => e == SyntaxError && exists k :: 0 <= k < |kept| && parse(kept[k]).None?
  {
    if Field(res, "result").Some? && Field(res, "result").value.JArr? {
      FilterIsSubseq(Field(res, "result").value.items, IsTruthy);
    }
  }

  // ---------------------------------------------------------------------------------------------
  // Supabase: rows `{word, doc_ids}` of the words matching any token

  /** `row.word.toLowerCase()`, or `None` where that throws. */
  function RowWord(row: Json): Option<string> {
    match Field(row, "word")
    case Some(JStr(w)) => Some(Lower(w))
    case _ => None
  }

  /** `row.doc_ids` when it is an array (anything else has no `forEach`). */
  function RowIds(row: Json): Option<seq<Json>> {
    match Field(row, "doc_ids")
    case Some(JArr(ids)) => Some(ids)
    case _ => None
  }

  predicate AnyTokenIn(word: string, tokens: seq<string>) {
    exists i :: 0 <= i < |tokens| && Contains(word, tokens[i])
  }

  /** A row the callback gets through without throwing. */
  predicate RowOk(row: Json, tokens: seq<string>) {
    RowWord(row).Some? && (AnyTokenIn(RowWord(row).value, tokens) ==> RowIds(row).Some?)
  }

  /** One `rows.forEach` callback: the ids of `row` join the set of every token its word contains. */
  function AddRow(sets: seq<seq<Json>>, tokens: seq<string>, row: Json): (r: Result<seq<seq<Json>>>)
    requires |sets| == |tokens|
    ensures r.Ok? <==> RowOk(row, tokens)
    ensures r.Err? ==> r == Err(TypeError)
    ensures r.Ok? ==> |r.value| == |tokens|
  {
    if !RowOk(row, tokens) then Err(TypeError)
    else
      var w := RowWord(row).value;
      Ok(seq(|sets|, i requires 0 <= i < |sets| =>
        if Contains(w, tokens[i]) then AddAll(sets[i], RowIds(row).value) else sets[i]))
  }

  function AddRows(sets: seq<seq<Json>>, tokens: seq<string>, rows: seq<Json>): (r: Result<seq<seq<Json>>>)
    requires |sets| == |tokens|
    ensures r.Ok? ==> |r.value| == |tokens|
    decreases |rows|
  {
    if rows == [] then Ok(sets)
    else match AddRow(sets, tokens, rows[0])
      case Ok(next) => AddRows(next, tokens, rows[1..])
      case Err(e) => Err(e)
  }

  function EmptySets(n: nat): (sets: seq<seq<Json>>)
    ensures |sets| == n && forall i :: 0 <= i < n ==> sets[i] == []
  {
    seq(n, _ => [])
  }

  /** What Supabase `fetchIds` resolves to, or the error it throws. */
  function SupabaseIdSets(tokens: seq<string>, res: Json): Result<seq<seq<Json>>> {
    match res
    case JArr(rows) => AddRows(EmptySets(|tokens|), tokens, rows)
    case _ => Err(TypeError)
  }

  /** The Supabase loops: `rows.forEach` over the rows, `tokens.forEach` over the tokens, and
      `row.doc_ids.forEach` into `sets[idx]` when the lowercased word contains the token. */
  method SupabaseFetchIds(tokens: seq<string>, res: Json) returns (r: Result<seq<seq<Json>>>)
    ensures r == SupabaseIdSets(tokens, res)
  {
    if !res.JArr? {
      return Err(TypeError);
    }
    var rows := res.items;
    var sets := EmptySets(|tokens|);
    var k := 0;
    while k < |rows|
      invariant 0 <= k <= |rows| && |sets| == |tokens|
      invariant SupabaseIdSets(tokens, res) == AddRows(sets, tokens, rows[k..])
    {
      var row := rows[k];
      assert rows[k..][0] == row && rows[k..][1..] == rows[k + 1..];
      var word := RowWord(row);
      if word.None? {
        return Err(TypeError);
      }
      var next := AddRowIds(sets, tokens, row, word.value);
      if next.Err? {
        return next;
      }
      sets := next.value;
      k := k + 1;
    }
    return Ok(sets);
  }

  /** One `rows.forEach` callback, given the row's lowercased word: `tokens.forEach` adds the row's
      ids to the set of every token the word contains, and throws when such a row has no id array. */
  method AddRowIds(sets: seq<seq<Json>>, tokens: seq<string>, row: Json, w: string)
    returns (r: Result<seq<seq<Json>>>)
    requires |sets| == |tokens| && RowWord(row) == Some(w)
    ensures r == AddRow(sets, tokens, row)
  {
    var current := sets;
    var idx := 0;
    while idx < |tokens|
      invariant 0 <= idx <= |tokens| && |current| == |tokens|
      invariant forall i :: 0 <= i < idx && Contains(w, tokens[i]) ==> RowIds(row).Some?
      invariant forall i :: 0 <= i < idx ==>
        current[i] == if Contains(w, tokens[i]) then AddAll(sets[i], RowIds(row).value) else sets[i]
      invariant forall i :: idx <= i < |tokens| ==> current[i] == sets[i]
    {
      if Contains(w, tokens[idx]) {
        var ids := RowIds(row);
        if ids.None? {
          assert !RowOk(row, tokens);
          return Err(TypeError);
        }
        current := current[idx := AddAll(current[idx], ids.value)];
      }
      idx := idx + 1;
    }
    assert RowOk(row, tokens);
    assert current == AddRow(sets, tokens, row).value;
    return Ok(current);
  }

  /** `row` is well formed, its lowercased word contains `token`, and `x` is one of its ids. */
  predicate RowContributes(row: Json, token: string, x: Json) {
    && RowWord(row).Some? && Contains(RowWord(row).value, token)
    && RowIds(row).Some? && x in RowIds(row).value
  }

  predicate SomeRowContributes(rows: seq<Json>, token: string, x: Json) {
    exists k :: 0 <= k < |rows| && RowContributes(rows[k], token, x)
  }

  lemma SomeRowContributesCons(rows: seq<Json>, token: string, x: Json)
    requires rows != []
    ensures SomeRowContributes(rows, token, x) <==>
      RowContributes(rows[0], token, x) || SomeRowContributes(rows[1..], token, x)
  {
    if SomeRowContributes(rows, token, x) && !RowContributes(rows[0], token, x) {
      var k :| 0 <= k < |rows| && RowContributes(rows[k], token, x);
      assert rows[1..][k - 1] == rows[k];
    }
    if SomeRowContributes(rows[1..], token, x) {
      var k :| 0 <= k < |rows[1..]| && RowContributes(rows[1..][k], token, x);
      assert rows[k + 1] == rows[1..][k];
    }
  }

  /** One row adds its ids, once each, to the set of every token its word contains. */
  lemma AddRowMembers(sets: seq<seq<Json>>, tokens: seq<string>, row: Json)
    requires |sets| == |tokens| && forall i :: 0 <= i < |sets| ==> NoDup(sets[i])
    requires RowOk(row, tokens)
    ensures forall i :: 0 <= i < |tokens| ==> NoDup(AddRow(sets, tokens, row).value[i])
    ensures forall i, x :: 0 <= i < |tokens| ==>
      (x in AddRow(sets, tokens, row).value[i] <==> x in sets[i] || RowContributes(row, tokens[i], x))
  {
    var next := AddRow(sets, tokens, row).value;
    var w := RowWord(row).value;
    forall i | 0 <= i < |tokens| ensures
      && NoDup(next[i])
      && forall x :: x in next[i] <==> x in sets[i] || RowContributes(row, tokens[i], x)
    {
      if Contains(w, tokens[i]) {
        assert AnyTokenIn(w, tokens);
        assert next[i] == AddAll(sets[i], RowIds(row).value);
      } else {
        assert next[i] == sets[i];
      }
    }
  }

  /** Either Supabase decoding fails on a malformed row, or `sets[i]` holds exactly the ids, added
      to `base[i]`, of the rows whose lowercased word contains `tokens[i]`, without repeats. */
  lemma {:induction false} AddRowsMembers(sets: seq<seq<Json>>, tokens: seq<string>, rows: seq<Json>)
    requires |sets| == |tokens| && forall i :: 0 <= i < |sets| ==> NoDup(sets[i])
    ensures AddRows(sets, tokens, rows).Ok? <==> forall k :: 0 <= k < |rows| ==> RowOk(rows[k], tokens)
    ensures AddRows(sets, tokens, rows).Err? ==> AddRows(sets, tokens, rows) == Err(TypeError)
    ensures AddRows(sets, tokens, rows).Ok? ==>
      forall i :: 0 <= i < |tokens| ==> NoDup(AddRows(sets, tokens, rows).value[i])
    ensures AddRows(sets, tokens, rows).Ok? ==> forall i, x :: 0 <= i < |tokens| ==>
      (x in AddRows(sets, tokens, rows).value[i] <==> x in sets[i] || SomeRowContributes(rows, tokens[i], x))
    decreases |rows|
  {
    if rows != [] {
      var row := rows[0];
      assert forall k :: 0 <= k < |rows| - 1 ==> rows[1..][k] == rows[k + 1];
      if RowOk(row, tokens) {
        var next := AddRow(sets, tokens, row).value;
        AddRowMembers(sets, tokens, row);
        AddRowsMembers(next, tokens, rows[1..]);
        if AddRows(sets, tokens, rows).Ok? {
          var r := AddRows(sets, tokens, rows).value;
          assert r == AddRows(next, tokens, rows[1..]).value;
          forall i, x | 0 <= i < |tokens| ensures
            x in r[i] <==> x in sets[i] || SomeRowContributes(rows, tokens[i], x)
          {
            SomeRowContributesCons(rows, tokens[i], x);
          }
        }
      }
    }
  }

  /** Supabase `fetchIds` gives one set per token, and `sets[i]` is the union of `doc_ids` over the
      rows whose lowercased word contains `tokens[i]`, without repeats; it throws a `TypeError` when
      the reply is not an array of rows or some row has no string word, or has no `doc_ids` array
      while its word contains a token. */
  lemma SupabaseIdSetsMembers(tokens: seq<string>, res: Json)
    ensures SupabaseIdSets(tokens, res).Ok? <==> res.JArr? && forall k :: 0 <= k < |res.items| ==> RowOk(res.items[k], tokens)
    ensures SupabaseIdSets(tokens, res).Err? ==> SupabaseIdSets(tokens, res) == Err(TypeError)
    ensures SupabaseIdSets(tokens, res).Ok? ==>
      var sets := SupabaseIdSets(tokens, res).value;
      && |sets| == |tokens|
      && (forall i :: 0 <= i < |tokens| ==> NoDup(sets[i]))
      && forall i, x :: 0 <= i < |tokens| ==> (x in sets[i] <==> SomeRowContributes(res.items, tokens[i], x))
  {
    if res.JArr? {
      var empty := EmptySets(|tokens|);
      AddRowsMembers(empty, tokens, res.items);
      if SupabaseIdSets(tokens, res).Ok? {
        var sets := SupabaseIdSets(tokens, res).value;
        forall i, x | 0 <= i < |tokens| ensures x in sets[i] <==> SomeRowContributes(res.items, tokens[i], x) {
          assert empty[i] == [];
        }
      }
    }
  }
}

/** The search component's `tokenize`: lowercase the query, split it on every run of characters
    outside `[a-z0-9]`, and keep the non-empty pieces. */
module Tokenizer {
  import opened Wrappers
  import opened Seqs
  import opened Strings

  predicate IsTokenChar(c: char) {
    'a' <= c <= 'z' || '0' <= c <= '9'
  }

  predicate AllTokenChars(w: string) {
    forall i :: 0 <= i < |w| ==> IsTokenChar(w[i])
  }

  /** A well-formed token: non-empty and made of `[a-z0-9]` only. */
  predicate IsToken(w: string) {
    w != [] && AllTokenChars(w)
  }

  /** The longest prefix of `s` made of token characters. */
  function LeadingRun(s: string): (w: string)
    ensures w <= s && AllTokenChars(w)
    ensures |w| < |s| ==> !IsTokenChar(s[|w|])
  {
    if s != [] && IsTokenChar(s[0]) then [s[0]] + LeadingRun(s[1..]) else []
  }

  /** `s` without its leading run of separator characters. */
  function SkipSeparators(s: string): (r: string)
    ensures |r| <= |s| && r == s[|s| - |r|..]
    ensures r == [] || IsTokenChar(r[0])
    ensures forall i :: 0 <= i < |s| - |r| ==> !IsTokenChar(s[i])
  {
    if s != [] && !IsTokenChar(s[0]) then
      var r := SkipSeparators(s[1..]);
      assert forall i :: 1 <= i < |s| - |r| ==> s[i] == s[1..][i - 1];
      r
    else s
  }

  /** `s.split(/[^a-z0-9]+/)`: the maximal runs of token characters, with an empty piece where `s`
      starts or ends with a separator (and the single piece `""` for the empty string). */
  function SplitOnSeparatorRuns(s: string): (pieces: seq<string>)
    ensures |pieces| >= 1
    ensures forall i :: 0 <= i < |pieces| ==> AllTokenChars(pieces[i])
    decreases |s|
  {
    var w := LeadingRun(s);
    if |w| == |s| then [w]
    else [w] + SplitOnSeparatorRuns(SkipSeparators(s[|w|..]))
  }

  function IsNonEmpty(w: string): bool {
    w != []
  }

  /** `tokenize(text)`; `None` stands for `undefined`/`null`, which `(text || '')` turns into ''. */
  function Tokenize(text: Option<string>): (tokens: seq<string>)
    ensures forall i :: 0 <= i < |tokens| ==> IsToken(tokens[i])
    ensures text.None? || text == Some("") ==> tokens == []
  {
    Filter(SplitOnSeparatorRuns(Lower(text.GetOr(""))), IsNonEmpty)
  }

  // ---- the tokens spell out the input's token characters, in order ----

  lemma {:induction false} FlattenNonEmpty(xs: seq<string>)
    ensures Flatten(Filter(xs, IsNonEmpty)) == Flatten(xs)
  {
    if xs != [] {
      FlattenNonEmpty(xs[1..]);
      if xs[0] == [] {
        assert Filter(xs, IsNonEmpty) == Filter(xs[1..], IsNonEmpty);
        assert Flatten(xs) == [] + Flatten(xs[1..]);
      } else {
        assert Filter(xs, IsNonEmpty) == [xs[0]] + Filter(xs[1..], IsNonEmpty);
        assert Flatten([xs[0]] + Filter(xs[1..], IsNonEmpty)) == xs[0] + Flatten(Filter(xs[1..], IsNonEmpty)) by {
          assert ([xs[0]] + Filter(xs[1..], IsNonEmpty))[1..] == Filter(xs[1..], IsNonEmpty);
        }
      }
    }
  }

  lemma {:induction false} NoTokenCharsFiltered(s: string)
    requires forall i :: 0 <= i < |s| ==> !IsTokenChar(s[i])
    ensures Filter(s, IsTokenChar) == []
  {
    if s != [] {
      assert forall i :: 0 <= i < |s[1..]| ==> s[1..][i] == s[i + 1];
      NoTokenCharsFiltered(s[1..]);
    }
  }

  lemma {:induction false} FlattenAtLeastOnePerPiece(t: seq<string>)
    requires forall i :: 0 <= i < |t| ==> t[i] != []
    ensures |Flatten(t)| >= |t|
  {
    if t != [] {
      FlattenAtLeastOnePerPiece(t[1..]);
    }
  }

  /** The separator-free remainder after the first run of `a`. */
  function AfterFirstRun(a: string): string
    requires |LeadingRun(a)| < |a|
  {
    SkipSeparators(a[|LeadingRun(a)|..])
  }

  lemma SplitUnfold(s: string)
    requires |LeadingRun(s)| < |s|
    ensures SplitOnSeparatorRuns(s) == [LeadingRun(s)] + SplitOnSeparatorRuns(SkipSeparators(s[|LeadingRun(s)|..]))
  {
  }

  /** Filtering `s` keeps its first run whole, drops the separators after it, and goes on with the rest. */
  lemma FilterAfterFirstRun(s: string)
    requires |LeadingRun(s)| < |s|
    ensures Filter(s, IsTokenChar) == LeadingRun(s) + Filter(AfterFirstRun(s), IsTokenChar)
  {
    var w, r := LeadingRun(s), AfterFirstRun(s);
    var seps := RunThenSeparators(s);
    FilterRunThenSeparators(w, seps, r);
  }

  /** `s` is its first run, then the separators after it, then what `AfterFirstRun` leaves. */
  lemma RunThenSeparators(s: string) returns (seps: string)
    requires |LeadingRun(s)| < |s|
    ensures s == LeadingRun(s) + (seps + AfterFirstRun(s))
    ensures forall i :: 0 <= i < |seps| ==> !IsTokenChar(seps[i])
  {
    var w := LeadingRun(s);
    var tail := s[|w|..];
    var r := SkipSeparators(tail);
    seps := tail[..|tail| - |r|];
    assert tail == seps + r && forall i :: 0 <= i < |seps| ==> !IsTokenChar(seps[i]) by {
      SeparatorsThenRest(tail);
    }
    assert s == w + (seps + r) by {
      assert s == w + tail;
    }
    assert r == AfterFirstRun(s);
  }

  lemma FilterRunThenSeparators(w: string, seps: string, r: string)
    requires AllTokenChars(w)
    requires forall i :: 0 <= i < |seps| ==> !IsTokenChar(seps[i])
    ensures Filter(w + (seps + r), IsTokenChar) == w + Filter(r, IsTokenChar)
  {
    NoTokenCharsFiltered(seps);
    FilterKeepsAll(w, IsTokenChar);
    FilterAppend(w, seps + r, IsTokenChar);
    FilterAppend(seps, r, IsTokenChar);
    assert [] + Filter(r, IsTokenChar) == Filter(r, IsTokenChar);
  }

  /** `t` is its leading separators followed by what `SkipSeparators` leaves. */
  lemma SeparatorsThenRest(t: string)
    ensures var r := SkipSeparators(t); var seps := t[..|t| - |r|];
      t == seps + r && forall i :: 0 <= i < |seps| ==> !IsTokenChar(seps[i])
  {
  }

  lemma FlattenCons(w: string, rest: seq<string>)
    ensures Flatten([w] + rest) == w + Flatten(rest)
  {
    assert ([w] + rest)[1..] == rest;
  }

  lemma {:induction false} FlattenPieces(s: string)
    ensures Flatten(SplitOnSeparatorRuns(s)) == Filter(s, IsTokenChar)
    decreases |s|
  {
    var w := LeadingRun(s);
    if |w| == |s| {
      assert w == s;
      FilterKeepsAll(w, IsTokenChar);
      FlattenCons(w, []);
    } else {
      var r := AfterFirstRun(s);
      FlattenPieces(r);
      FilterAfterFirstRun(s);
      SplitUnfold(s);
      FlattenCons(w, SplitOnSeparatorRuns(r));
    }
  }

  /** Concatenated, the tokens are exactly the `[a-z0-9]` characters of the lowercased input, in
      input order: nothing is reordered, nothing but separators is dropped. */
  lemma TokensSpellInput(text: Option<string>)
    ensures Flatten(Tokenize(text)) == Filter(Lower(text.GetOr("")), IsTokenChar)
  {
    var s := Lower(text.GetOr(""));
    FlattenNonEmpty(SplitOnSeparatorRuns(s));
    FlattenPieces(s);
  }

  /** A query that is empty or whitespace has no tokens. */
  lemma BlankHasNoTokens(q: string)
    requires IsBlank(q)
    ensures Tokenize(Some(q)) == []
  {
    TokensSpellInput(Some(q));
    var s := Lower(q);
    assert forall i :: 0 <= i < |s| ==> !IsTokenChar(s[i]) by {
      forall i | 0 <= i < |s| ensures !IsTokenChar(s[i]) { assert IsSpace(q[i]); }
    }
    NoTokenCharsFiltered(s);
    FlattenAtLeastOnePerPiece(Tokenize(Some(q)));
  }

  // ---- splitting at a separator ----

  lemma {:induction false} LeadingRunOf(w: string, rest: string)
    requires AllTokenChars(w)
    requires rest == [] || !IsTokenChar(rest[0])
    ensures LeadingRun(w + rest) == w
  {
    if w != [] {
      assert (w + rest)[1..] == w[1..] + rest;
      LeadingRunOf(w[1..], rest);
    } else {
      assert w + rest == rest;
    }
  }

  lemma {:induction false} SkipSeparatorsAll(x: string, y: string)
    requires forall i :: 0 <= i < |x| ==> !IsTokenChar(x[i])
    ensures SkipSeparators(x + y) == SkipSeparators(y)
  {
    if x != [] {
      assert (x + y)[1..] == x[1..] + y;
      SkipSeparatorsAll(x[1..], y);
    } else {
      assert x + y == y;
    }
  }

  lemma {:induction false} SkipSeparatorsAppend(x: string, y: string)
    requires SkipSeparators(x) != []
    ensures SkipSeparators(x + y) == SkipSeparators(x) + y
  {
    assert x != [] && (x + y)[0] == x[0];
    if !IsTokenChar(x[0]) {
      assert (x + y)[1..] == x[1..] + y;
      SkipSeparatorsAppend(x[1..], y);
    }
  }

  function NonEmptyPieces(s: string): seq<string> {
    Filter(SplitOnSeparatorRuns(s), IsNonEmpty)
  }

  lemma SkipSeparatorsKeepsTokens(b: string)
    ensures NonEmptyPieces(SkipSeparators(b)) == NonEmptyPieces(b)
  {
    if b != [] && !IsTokenChar(b[0]) {
      assert LeadingRun(b) == [];
      assert b[0..] == b;
      assert SplitOnSeparatorRuns(b) == [[]] + SplitOnSeparatorRuns(SkipSeparators(b));
      FilterAppend([[]], SplitOnSeparatorRuns(SkipSeparators(b)), IsNonEmpty);
    }
  }

  lemma PiecesSingleRun(a: string, sep: string, b: string)
    requires sep != [] && forall i :: 0 <= i < |sep| ==> !IsTokenChar(sep[i])
    requires LeadingRun(a) == a
    ensures NonEmptyPieces(a + sep + b) == NonEmptyPieces(a) + NonEmptyPieces(b)
  {
    var s := a + sep + b;
    LeadingRunOf(a, sep + b);
    assert s == a + (sep + b);
    assert s[|a|..] == sep + b;
    SkipSeparatorsAll(sep, b);
    SplitUnfold(s);
    var tail := SplitOnSeparatorRuns(SkipSeparators(b));
    assert SplitOnSeparatorRuns(s) == [a] + tail;
    assert SplitOnSeparatorRuns(a) == [a];
    calc {
      NonEmptyPieces(s);
      Filter([a] + tail, IsNonEmpty);
      { FilterAppend([a], tail, IsNonEmpty); }
      Filter([a], IsNonEmpty) + Filter(tail, IsNonEmpty);
      { SkipSeparatorsKeepsTokens(b); }
      NonEmptyPieces(a) + NonEmptyPieces(b);
    }
  }

  /** The pieces of `a` when `a` is a run `w`, then separators, then the remainder `r`. */
  lemma PiecesAfterFirstRun(a: string, rest: string)
    requires |LeadingRun(a)| < |a|
    ensures var w := LeadingRun(a); var r := SkipSeparators(a[|w|..]);
      NonEmptyPieces(a + rest) == Filter([w], IsNonEmpty) + NonEmptyPieces(SkipSeparators(a[|w|..] + rest))
      && NonEmptyPieces(a) == Filter([w], IsNonEmpty) + NonEmptyPieces(r)
  {
    var w := LeadingRun(a);
    var a1 := a[|w|..];
    assert a == w + a1;
    LeadingRunOf(w, a1 + rest);
    assert a + rest == w + (a1 + rest);
    assert (a + rest)[|w|..] == a1 + rest;
    var r := SkipSeparators(a1);
    var t := SplitOnSeparatorRuns(SkipSeparators(a1 + rest));
    assert SplitOnSeparatorRuns(a + rest) == [w] + t;
    FilterAppend([w], t, IsNonEmpty);
    assert SplitOnSeparatorRuns(a) == [w] + SplitOnSeparatorRuns(r);
    FilterAppend([w], SplitOnSeparatorRuns(r), IsNonEmpty);
  }

  lemma {:induction false} PiecesAtSeparators(a: string, sep: string, b: string)
    requires sep != [] && forall i :: 0 <= i < |sep| ==> !IsTokenChar(sep[i])
    ensures NonEmptyPieces(a + sep + b) == NonEmptyPieces(a) + NonEmptyPieces(b)
    decreases |a|
  {
    if |LeadingRun(a)| == |a| {
      PiecesSingleRun(a, sep, b);
    } else if AfterFirstRun(a) != [] {
      PiecesAtSeparators(AfterFirstRun(a), sep, b);
      PiecesStep(a, sep, b);
    } else {
      PiecesLastRun(a, sep, b);
    }
  }

  lemma PiecesAppendAfterRun(a: string, t: string)
    requires |LeadingRun(a)| < |a| && AfterFirstRun(a) != []
    ensures NonEmptyPieces(a + t) == Filter([LeadingRun(a)], IsNonEmpty) + NonEmptyPieces(AfterFirstRun(a) + t)
    ensures NonEmptyPieces(a) == Filter([LeadingRun(a)], IsNonEmpty) + NonEmptyPieces(AfterFirstRun(a))
  {
    PiecesAfterFirstRun(a, t);
    SkipSeparatorsAppend(a[|LeadingRun(a)|..], t);
  }

  lemma PiecesStep(a: string, sep: string, b: string)
    requires |LeadingRun(a)| < |a| && AfterFirstRun(a) != []
    requires NonEmptyPieces(AfterFirstRun(a) + sep + b) == NonEmptyPieces(AfterFirstRun(a)) + NonEmptyPieces(b)
    ensures NonEmptyPieces(a + sep + b) == NonEmptyPieces(a) + NonEmptyPieces(b)
  {
    var r := AfterFirstRun(a);
    var fw := Filter([LeadingRun(a)], IsNonEmpty);
    PiecesAppendAfterRun(a, sep + b);
    AppendAssoc(a, sep, b);
    AppendAssoc(r, sep, b);
    AppendAssoc(fw, NonEmptyPieces(r), NonEmptyPieces(b));
  }

  lemma PiecesLastRun(a: string, sep: string, b: string)
    requires sep != [] && forall i :: 0 <= i < |sep| ==> !IsTokenChar(sep[i])
    requires |LeadingRun(a)| < |a| && AfterFirstRun(a) == []
    ensures NonEmptyPieces(a + sep + b) == NonEmptyPieces(a) + NonEmptyPieces(b)
  {
    var w := LeadingRun(a);
    var a1 := a[|w|..];
    var fw := Filter([w], IsNonEmpty);
    PiecesAfterFirstRun(a, sep + b);
    AppendAssoc(a, sep, b);
    PiecesAfterSeparatorsOnly(a1, sep, b);
    assert fw + [] == fw;
  }

  lemma SkipSeparatorsOnly(a1: string, sep: string, b: string)
    requires SkipSeparators(a1) == []
    requires forall i :: 0 <= i < |sep| ==> !IsTokenChar(sep[i])
    ensures SkipSeparators(a1 + (sep + b)) == SkipSeparators(b)
  {
    var seps := a1 + sep;
    forall i | 0 <= i < |seps| ensures !IsTokenChar(seps[i]) {
      if i < |a1| {
        assert seps[i] == a1[i];
      } else {
        assert seps[i] == sep[i - |a1|];
      }
    }
    AppendAssoc(a1, sep, b);
    SkipSeparatorsAll(seps, b);
  }

  lemma NoPiecesOfEmpty()
    ensures NonEmptyPieces([]) == []
  {
    assert SplitOnSeparatorRuns([]) == [[]];
  }

  lemma PiecesAfterSeparatorsOnly(a1: string, sep: string, b: string)
    requires SkipSeparators(a1) == []
    requires forall i :: 0 <= i < |sep| ==> !IsTokenChar(sep[i])
    ensures NonEmptyPieces(SkipSeparators(a1 + (sep + b))) == NonEmptyPieces(b)
    ensures NonEmptyPieces(SkipSeparators(a1)) == []
  {
    SkipSeparatorsOnly(a1, sep, b);
    SkipSeparatorsKeepsTokens(b);
    NoPiecesOfEmpty();
  }

  /** A character outside `[a-z0-9]` (after lowercasing) always ends one token and starts the next:
      the tokens of `a + [c] + b` are the tokens of `a` followed by the tokens of `b`. */
  lemma TokenizeAtSeparator(a: string, c: char, b: string)
    requires !IsTokenChar(LowerChar(c))
    ensures Tokenize(Some(a + [c] + b)) == Tokenize(Some(a)) + Tokenize(Some(b))
  {
    LowerAppend(a + [c], b);
    LowerAppend(a, [c]);
    assert Lower([c]) == [LowerChar(c)];
    PiecesAtSeparators(Lower(a), [LowerChar(c)], Lower(b));
  }

  // ---- round trip ----

  lemma {:induction false} JoinedTokenChars(tokens: seq<string>)
    requires forall i :: 0 <= i < |tokens| ==> IsToken(tokens[i])
    ensures forall k :: 0 <= k < |Join(tokens, " ")| ==> IsTokenChar(Join(tokens, " ")[k]) || Join(tokens, " ")[k] == ' '
    ensures |tokens| > 0 ==> Join(tokens, " ") != [] && IsTokenChar(Join(tokens, " ")[0])
  {
    if |tokens| > 1 {
      JoinedTokenChars(tokens[1..]);
      assert Join(tokens, " ") == tokens[0] + " " + Join(tokens[1..], " ");
    }
  }

  lemma {:induction false} SplitJoined(tokens: seq<string>)
    requires |tokens| > 0 && forall i :: 0 <= i < |tokens| ==> IsToken(tokens[i])
    ensures SplitOnSeparatorRuns(Join(tokens, " ")) == tokens
  {
    var t0 := tokens[0];
    if |tokens| == 1 {
      LeadingRunOf(t0, []);
      assert t0 + [] == t0;
    } else {
      var rest := Join(tokens[1..], " ");
      AppendAssoc(t0, " ", rest);
      JoinedTokenChars(tokens[1..]);
      SplitAfterRun(t0, rest);
      SplitJoined(tokens[1..]);
      assert tokens == [t0] + tokens[1..];
    }
  }

  /** A token, one space, then text starting with a token character splits into the token and the
      pieces of that text. */
  lemma SplitAfterRun(w: string, rest: string)
    requires IsToken(w) && rest != [] && IsTokenChar(rest[0])
    ensures SplitOnSeparatorRuns(w + (" " + rest)) == [w] + SplitOnSeparatorRuns(rest)
  {
    var s := w + (" " + rest);
    LeadingRunOf(w, " " + rest);
    assert s[|w|..] == " " + rest;
    SkipOneSpace(rest);
  }

  lemma SkipOneSpace(rest: string)
    requires rest != [] && IsTokenChar(rest[0])
    ensures SkipSeparators(" " + rest) == rest
  {
    assert (" " + rest)[1..] == rest;
  }

  lemma LowerOfLowercase(s: string)
    requires forall k :: 0 <= k < |s| ==> !('A' <= s[k] <= 'Z')
    ensures Lower(s) == s
  {
  }

  lemma JoinedIsLowercase(tokens: seq<string>)
    requires forall i :: 0 <= i < |tokens| ==> IsToken(tokens[i])
    ensures Lower(Join(tokens, " ")) == Join(tokens, " ")
  {
    var s := Join(tokens, " ");
    JoinedTokenChars(tokens);
    forall k | 0 <= k < |s| ensures !('A' <= s[k] <= 'Z') {
      assert IsTokenChar(s[k]) || s[k] == ' ';
    }
    LowerOfLowercase(s);
  }

  /** Tokens joined with spaces tokenize back to the same tokens. */
  lemma TokenizeJoinRoundTrip(tokens: seq<string>)
    requires forall i :: 0 <= i < |tokens| ==> IsToken(tokens[i])
    ensures Tokenize(Some(Join(tokens, " "))) == tokens
  {
    if tokens != [] {
      var s := Join(tokens, " ");
      calc {
        Tokenize(Some(s));
        Filter(SplitOnSeparatorRuns(Lower(s)), IsNonEmpty);
        { JoinedIsLowercase(tokens); }
        Filter(SplitOnSeparatorRuns(s), IsNonEmpty);
        { SplitJoined(tokens); }
        Filter(tokens, IsNonEmpty);
        { FilterKeepsAll(tokens, IsNonEmpty); }
        tokens;
      }
    }
  }
}

/** The string operations of JavaScript that the theme relies on: `trim`, ASCII case mapping,
    `indexOf`/`includes`, and `split`/`join` with a string separator. */
module Strings {
  import opened Wrappers

  /** JavaScript's WhiteSpace and LineTerminator characters: what `trim()` removes and `\s` matches. */
  predicate IsSpace(c: char) {
    || c == ' ' || c == '\t' || c == '\n' || c == '\r' || c == '\U{B}' || c == '\U{C}'
    || c == '\U{A0}' || c == '\U{1680}' || ('\U{2000}' <= c <= '\U{200A}')
    || c == '\U{2028}' || c == '\U{2029}' || c == '\U{202F}' || c == '\U{205F}'
    || c == '\U{3000}' || c == '\U{FEFF}'
  }

  /** `s` holds nothing but whitespace (or nothing at all). */
  predicate IsBlank(s: string) {
    forall i :: 0 <= i < |s| ==> IsSpace(s[i])
  }

  /** Removes leading whitespace. */
  function TrimStart(s: string): (r: string)
    ensures |r| <= |s| && r == s[|s| - |r|..]
    ensures r == [] || !IsSpace(r[0])
    ensures forall i :: 0 <= i < |s| - |r| ==> IsSpace(s[i])
  {
    if s != [] && IsSpace(s[0]) then TrimStart(s[1..]) else s
  }

  /** Removes trailing whitespace. */
  function TrimEnd(s: string): (r: string)
    ensures |r| <= |s| && r == s[..|r|]
    ensures r == [] || !IsSpace(r[|r| - 1])
    ensures forall i :: |r| <= i < |s| ==> IsSpace(s[i])
  {
    if s != [] && IsSpace(s[|s| - 1]) then TrimEnd(s[..|s| - 1]) else s
  }

  /** `s.trim()`. */
  function Trim(s: string): string {
    TrimEnd(TrimStart(s))
  }

  /** Trimming the start of a blank string leaves nothing. */
  lemma {:induction false} TrimStartBlank(s: string)
    requires IsBlank(s)
    ensures TrimStart(s) == ""
  {
    if s != [] {
      assert IsBlank(s[1..]) by {
        forall i | 0 <= i < |s[1..]| ensures IsSpace(s[1..][i]) { assert s[1..][i] == s[i + 1]; }
      }
      TrimStartBlank(s[1..]);
    }
  }

  /** `s.trim() === ''` holds exactly for blank strings. */
  lemma TrimEmptyIffBlank(s: string)
    ensures Trim(s) == "" <==> IsBlank(s)
  {
    var t := TrimStart(s);
    if IsBlank(s) {
      TrimStartBlank(s);
    }
  }

  /** Without its surrounding whitespace a string is non-empty exactly when it is not blank,
      and a trimmed string starts and ends with a non-space. */
  lemma TrimShape(s: string)
    ensures var t := Trim(s); t == [] || (!IsSpace(t[0]) && !IsSpace(t[|t| - 1]))
  {
    var u := TrimStart(s);
    var t := TrimEnd(u);
    if t != [] {
      assert t[0] == u[0];
    }
  }

  function LowerChar(c: char): char {
    if 'A' <= c <= 'Z' then (c as int + 32) as char else c
  }

  function UpperChar(c: char): char {
    if 'a' <= c <= 'z' then (c as int - 32) as char else c
  }

  /** `s.toLowerCase()` on the ASCII letters. */
  function Lower(s: string): (r: string)
    ensures |r| == |s| && forall i :: 0 <= i < |s| ==> r[i] == LowerChar(s[i])
  {
    seq(|s|, i requires 0 <= i < |s| => LowerChar(s[i]))
  }

  /** `s.toUpperCase()` on the ASCII letters. */
  function Upper(s: string): (r: string)
    ensures |r| == |s| && forall i :: 0 <= i < |s| ==> r[i] == UpperChar(s[i])
  {
    seq(|s|, i requires 0 <= i < |s| => UpperChar(s[i]))
  }

  lemma LowerAppend(a: string, b: string)
    ensures Lower(a + b) == Lower(a) + Lower(b)
  {
  }

  /** `pat` occurs in `s` starting at position `i`. */
  predicate OccursAt(s: string, pat: string, i: nat) {
    i + |pat| <= |s| && s[i..i + |pat|] == pat
  }

  /** The first position at or after `k` where `pat` occurs in `s`. */
  function IndexFrom(s: string, pat: string, k: nat): (r: Option<nat>)
    ensures r.Some? ==> k <= r.value && OccursAt(s, pat, r.value)
    ensures forall j :: k <= j && (r.None? || j < r.value) ==> !OccursAt(s, pat, j)
    decreases |s| - k
  {
    if k + |pat| > |s| then None
    else if s[k..k + |pat|] == pat then Some(k)
    else IndexFrom(s, pat, k + 1)
  }

  /** `s.indexOf(pat)`, with `None` for -1. */
  function IndexOf(s: string, pat: string): Option<nat> {
    IndexFrom(s, pat, 0)
  }

  /** `s.includes(pat)`. */
  predicate Contains(s: string, pat: string) {
    IndexOf(s, pat).Some?
  }

  /** `includes` holds exactly when the pattern occurs somewhere. */
  lemma ContainsIff(s: string, pat: string)
    ensures Contains(s, pat) <==> exists i :: OccursAt(s, pat, i)
  {
  }

  /** A string that starts with `pat` finds it at position 0. */
  lemma IndexOfStart(pat: string, rest: string)
    ensures IndexOf(pat + rest, pat) == Some(0)
  {
    assert (pat + rest)[0..|pat|] == pat;
  }

  /** Appending text after a match that lies wholly inside `x` does not move the first match. */
  lemma IndexOfExtend(x: string, y: string, pat: string)
    requires IndexOf(x, pat).Some?
    ensures IndexOf(x + y, pat) == IndexOf(x, pat)
  {
    var i := IndexOf(x, pat).value;
    assert (x + y)[i..i + |pat|] == x[i..i + |pat|];
    forall j | 0 <= j < i ensures !OccursAt(x + y, pat, j) {
      assert !OccursAt(x, pat, j);
      assert (x + y)[j..j + |pat|] == x[j..j + |pat|];
    }
    IndexOfUnique(x + y, pat, i);
  }

  /** If the first match in `x + y` is at `|x|`, there is no match inside `x` alone. */
  lemma IndexOfPrefixNone(x: string, y: string, pat: string)
    requires |pat| > 0
    requires IndexOf(x + y, pat) == Some(|x|)
    ensures IndexOf(x, pat) == None
  {
    forall j | 0 <= j ensures !OccursAt(x, pat, j) {
      assert OccursAt(x, pat, j) ==> OccursAt(x + y, pat, j) by {
        if j + |pat| <= |x| {
          assert (x + y)[j..j + |pat|] == x[j..j + |pat|];
        }
      }
    }
  }

  /** A match with no earlier match at or after `k` is what the search from `k` finds. */
  lemma {:induction false} IndexFromFirst(s: string, pat: string, k: nat, i: nat)
    requires k <= i && OccursAt(s, pat, i)
    requires forall j :: k <= j < i ==> !OccursAt(s, pat, j)
    ensures IndexFrom(s, pat, k) == Some(i)
    decreases i - k
  {
    if k < i {
      assert !OccursAt(s, pat, k);
      IndexFromFirst(s, pat, k + 1, i);
    }
  }

  /** A match with no earlier match is the first one. */
  lemma IndexOfUnique(s: string, pat: string, i: nat)
    requires OccursAt(s, pat, i)
    requires forall j :: 0 <= j < i ==> !OccursAt(s, pat, j)
    ensures IndexOf(s, pat) == Some(i)
  {
    IndexFromFirst(s, pat, 0, i);
  }

  /** `s.split(sep)` for a non-empty string separator: the pieces between successive
      non-overlapping occurrences, searched from left to right. */
  function Split(s: string, sep: string): (parts: seq<string>)
    requires |sep| > 0
    ensures |parts| >= 1
    decreases |s|
  {
    match IndexOf(s, sep)
    case None => [s]
    case Some(i) => [s[..i]] + Split(s[i + |sep|..], sep)
  }

  /** `parts.join(sep)`. */
  function Join(parts: seq<string>, sep: string): (s: string)
    ensures parts == [] ==> s == ""
  {
    if parts == [] then ""
    else if |parts| == 1 then parts[0]
    else parts[0] + sep + Join(parts[1..], sep)
  }

  lemma JoinCons(a: string, parts: seq<string>, sep: string)
    requires parts != []
    ensures Join([a] + parts, sep) == a + sep + Join(parts, sep)
  {
    assert ([a] + parts)[1..] == parts;
  }

  /** Joining the pieces of a split with the same separator gives back the string. */
  lemma {:induction false} JoinSplit(s: string, sep: string)
    requires |sep| > 0
    ensures Join(Split(s, sep), sep) == s
    decreases |s|
  {
    var r := IndexOf(s, sep);
    if r.Some? {
      var i := r.value;
      var rest := s[i + |sep|..];
      assert Split(s, sep) == [s[..i]] + Split(rest, sep);
      JoinSplit(rest, sep);
      JoinCons(s[..i], Split(rest, sep), sep);
      assert s[i..i + |sep|] == sep;
      assert s == s[..i] + s[i..i + |sep|] + rest;
    }
  }

  /** No piece of a split contains the separator. */
  lemma {:induction false} SplitPiecesFree(s: string, sep: string)
    requires |sep| > 0
    ensures forall k :: 0 <= k < |Split(s, sep)| ==> !Contains(Split(s, sep)[k], sep)
    decreases |s|
  {
    match IndexOf(s, sep)
    case None =>
    case Some(i) =>
      var rest := s[i + |sep|..];
      SplitPiecesFree(rest, sep);
      var parts := Split(s, sep);
      assert parts == [s[..i]] + Split(rest, sep);
      assert !Contains(s[..i], sep) by {
        forall j | 0 <= j ensures !OccursAt(s[..i], sep, j) {
          assert OccursAt(s[..i], sep, j) ==> OccursAt(s, sep, j) && j < i by {
            if j + |sep| <= i {
              assert s[..i][j..j + |sep|] == s[j..j + |sep|];
            }
          }
        }
      }
  }

  /** A split yields at least two pieces exactly when the separator occurs. */
  lemma SplitTwoIff(s: string, sep: string)
    requires |sep| > 0
    ensures |Split(s, sep)| >= 2 <==> Contains(s, sep)
  {
  }

  /** Splitting `x + sep + y`, where the first separator is the one after `x`, gives `x` first. */
  lemma SplitAt(x: string, y: string, sep: string)
    requires |sep| > 0
    requires IndexOf(x + sep + y, sep) == Some(|x|)
    ensures Split(x + sep + y, sep) == [x] + Split(y, sep)
  {
    var s := x + sep + y;
    assert s[..|x|] == x;
    assert s[|x| + |sep|..] == y;
  }

  /** Removes every `"` and `'`: `s.replace(/["']/g, '')`. */
  function RemoveQuotes(s: string): (r: string)
    ensures forall i :: 0 <= i < |r| ==> r[i] != '"' && r[i] != '\''
    ensures |r| <= |s|
  {
    if s == [] then []
    else (if s[0] == '"' || s[0] == '\'' then [] else [s[0]]) + RemoveQuotes(s[1..])
  }
}

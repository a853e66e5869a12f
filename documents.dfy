/** A document of the search index, and the text the search functions look for tokens in. */
module Documents {
  import opened Wrappers
  import opened Strings

  /** One entry of `/search/index.json` (or of a remote document store). Every field but the id
      may be missing; `kind` is the `type` field ("post" or "project"). */
  datatype Doc = Doc(
    id: string,
    title: Option<string>,
    content: Option<string>,
    excerpt: Option<string>,
    url: Option<string>,
    date: Option<string>,
    kind: Option<string>,
    encrypted: bool)

  /** `${doc.title}` in a template literal and `d.title + ' '`: a missing title prints as "undefined". */
  function TitleText(d: Doc): string {
    match d.title
    case Some(t) => t
    case None => "undefined"
  }

  /** The lowercased `title content excerpt` text that both search scripts match against. */
  function Haystack(d: Doc): string {
    Lower(TitleText(d) + " " + d.content.GetOr("") + " " + d.excerpt.GetOr(""))
  }

  /** Text occurring inside `b` occurs inside `a + b + c`. */
  lemma ContainsInfix(a: string, b: string, c: string, pat: string)
    requires Contains(b, pat)
    ensures Contains(a + b + c, pat)
  {
    var i := IndexOf(b, pat).value;
    assert (a + b + c)[|a| + i..|a| + i + |pat|] == b[i..i + |pat|];
    assert OccursAt(a + b + c, pat, |a| + i);
    ContainsIff(a + b + c, pat);
  }

  lemma ContainsBefore(a: string, b: string, pat: string)
    requires Contains(a, pat)
    ensures Contains(a + b, pat)
  {
    ContainsInfix([], a, b, pat);
    assert [] + a + b == a + b;
  }

  lemma ContainsAfter(a: string, b: string, pat: string)
    requires Contains(b, pat)
    ensures Contains(a + b, pat)
  {
    ContainsInfix(a, b, [], pat);
    assert a + b + [] == a + b;
  }

  /** The haystack is the lowercased fields joined by lowercased spaces. */
  lemma HaystackParts(d: Doc)
    ensures Haystack(d) == Lower(TitleText(d)) + Lower(" ") + Lower(d.content.GetOr(""))
                           + Lower(" ") + Lower(d.excerpt.GetOr(""))
  {
    var t, c, e := TitleText(d), d.content.GetOr(""), d.excerpt.GetOr("");
    LowerAppend(t + " " + c + " ", e);
    LowerAppend(t + " " + c, " ");
    LowerAppend(t + " ", c);
    LowerAppend(t, " ");
  }

  /** A term found in the lowercased title, content or excerpt is found in the haystack. */
  lemma HaystackCoversFields(d: Doc, pat: string)
    requires || Contains(Lower(TitleText(d)), pat)
             || Contains(Lower(d.content.GetOr("")), pat)
             || Contains(Lower(d.excerpt.GetOr("")), pat)
    ensures Contains(Haystack(d), pat)
  {
    HaystackParts(d);
    var lt, lc, le, sp := Lower(TitleText(d)), Lower(d.content.GetOr("")), Lower(d.excerpt.GetOr("")), Lower(" ");
    if Contains(lt, pat) {
      ContainsBefore(lt, sp, pat);
      ContainsBefore(lt + sp, lc, pat);
    } else if Contains(lc, pat) {
      ContainsAfter(lt + sp, lc, pat);
    }
    if !Contains(le, pat) {
      ContainsBefore(lt + sp + lc, sp, pat);
      ContainsBefore(lt + sp + lc + sp, le, pat);
    } else {
      ContainsAfter(lt + sp + lc + sp, le, pat);
    }
  }
}

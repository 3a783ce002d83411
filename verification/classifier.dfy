/**
  The first-match-wins classifier shared by `detect_model` and
  `detect_carrier`. The text is upper-cased, the categories are tried in table
  order and the keywords of one category in the order they were written; the
  first category with a keyword inside the text is the answer, and the
  fallback name is returned when no keyword occurs at all.
 */
module Classifier {
  import opened Wrappers
  import opened Text

  /** A category name with its keyword variants (synonyms, OCR misreads),
      written upper-case. */
  datatype Category = Category(name: string, keywords: seq<string>)

  /** Some keyword occurs in `text`; the keywords are tried in order. */
  function AnyKeyword(keywords: seq<string>, text: string): (b: bool)
    ensures b <==> exists k :: 0 <= k < |keywords| && Contains(text, keywords[k])
  {
    if keywords == [] then
      false
    else if Contains(text, keywords[0]) then
      true
    else
      var b := AnyKeyword(keywords[1..], text);
      assert forall k :: 1 <= k < |keywords| ==> keywords[k] == keywords[1..][k - 1];
      b
  }

  /** Category `c` has a keyword in `text`. */
  predicate Hit(c: Category, text: string) {
    AnyKeyword(c.keywords, text)
  }

  /** `k` is the first category of `table` with a keyword in `text`. */
  predicate IsFirstHit(table: seq<Category>, text: string, k: int) {
    && 0 <= k < |table|
    && Hit(table[k], text)
    && forall j :: 0 <= j < k ==> !Hit(table[j], text)
  }

  /** No category of `table` has a keyword in `text`. */
  predicate NoHit(table: seq<Category>, text: string) {
    forall j :: 0 <= j < |table| ==> !Hit(table[j], text)
  }

  /** The nested loop of the source: the index of the first category with a
      keyword in `text`, or `None` when there is none. */
  function FirstHit(table: seq<Category>, text: string): (r: Option<nat>)
    ensures r.Some? ==> IsFirstHit(table, text, r.value)
    ensures r.None? <==> NoHit(table, text)
  {
    if table == [] then
      None
    else if Hit(table[0], text) then
      Some(0)
    else
      match FirstHit(table[1..], text)
      case None =>
        assert forall j :: 1 <= j < |table| ==> table[j] == table[1..][j - 1];
        None
      case Some(k) =>
        assert forall j :: 1 <= j <= k + 1 ==> table[j] == table[1..][j - 1];
        Some(k + 1)
  }

  /** `name` is the name of some category of `table`. */
  predicate Named(table: seq<Category>, name: string) {
    exists k :: 0 <= k < |table| && table[k].name == name
  }

  /** Classifies `text`: the name of the first category with a keyword in
      the upper-cased text, else the fallback. */
  function Classify(table: seq<Category>, fallback: string, text: string): (c: string)
    ensures forall k :: IsFirstHit(table, Upper(text), k) ==> c == table[k].name
    ensures NoHit(table, Upper(text)) ==> c == fallback
    ensures c == fallback || Named(table, c)
  {
    match FirstHit(table, Upper(text))
    case Some(k) => table[k].name
    case None => fallback
  }

  /** Classification only looks at the upper-cased text, so it ignores the
      case of ASCII letters. */
  lemma ClassifyIgnoresCase(table: seq<Category>, fallback: string, text: string)
    ensures Classify(table, fallback, Upper(text)) == Classify(table, fallback, text)
  {
    UpperIdempotent(text);
  }

  /** No keyword of the table is the empty string. */
  predicate KeywordsNonEmpty(table: seq<Category>) {
    forall k, w :: 0 <= k < |table| && 0 <= w < |table[k].keywords| ==> |table[k].keywords[w]| > 0
  }

  /** A page with no text falls back, since no non-empty keyword occurs in
      the empty string. */
  lemma ClassifyEmptyText(table: seq<Category>, fallback: string)
    requires KeywordsNonEmpty(table)
    ensures Classify(table, fallback, "") == fallback
  {
    forall j | 0 <= j < |table|
      ensures !Hit(table[j], Upper(""))
    {
      forall w | 0 <= w < |table[j].keywords|
        ensures !Contains("", table[j].keywords[w])
      {
        EmptyContainsNothing(table[j].keywords[w]);
      }
    }
  }

  /** Only a keyword-less category may carry the fallback's name. */
  predicate FallbackUnmatchable(table: seq<Category>, fallback: string) {
    forall k :: 0 <= k < |table| && table[k].name == fallback ==> table[k].keywords == []
  }

  /** The fallback is returned exactly when no category has a keyword in
      the upper-cased text. */
  lemma ClassifyFallbackIff(table: seq<Category>, fallback: string, text: string)
    requires FallbackUnmatchable(table, fallback)
    ensures Classify(table, fallback, text) == fallback <==> NoHit(table, Upper(text))
  {
    var r := FirstHit(table, Upper(text));
    if r.Some? {
      assert table[r.value].keywords != [];
    }
  }

  /** Every keyword of `later` contains a keyword of `earlier`, so any text
      hit by `later` is hit by `earlier` too. */
  predicate Covers(earlier: Category, later: Category) {
    forall w :: 0 <= w < |later.keywords| ==>
      exists v :: 0 <= v < |earlier.keywords| && Contains(later.keywords[w], earlier.keywords[v])
  }

  /** First match wins even against a longer, more specific keyword: a
      category covered by an earlier one is never the first hit. */
  lemma CoveredNeverFirst(table: seq<Category>, text: string, i: nat, j: nat)
    requires i < j < |table|
    requires Covers(table[i], table[j])
    ensures !IsFirstHit(table, text, j)
  {
    if Hit(table[j], text) {
      var w :| 0 <= w < |table[j].keywords| && Contains(text, table[j].keywords[w]);
      var v :| 0 <= v < |table[i].keywords| && Contains(table[j].keywords[w], table[i].keywords[v]);
      ContainsTransitive(text, table[j].keywords[w], table[i].keywords[v]);
      assert Hit(table[i], text);
    }
  }
}

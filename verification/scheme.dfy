/**
  A classification scheme bundles what one sorter script hard-codes: the
  keyword table, the fallback category, the priority table and the default
  priority passed to `.get`.
 */
module Scheme {
  import opened Classifier
  import opened PriorityTable

  datatype Scheme = Scheme(
    categories: seq<Category>,
    fallback: string,
    priorities: Table,
    defaultPriority: int)

  /** The category a page with this text is assigned to. */
  function Categorize(s: Scheme, text: string): string {
    Classify(s.categories, s.fallback, text)
  }

  /** `priorities.get(category, default)`. */
  function PriorityOf(s: Scheme, category: string): int {
    Get(s.priorities, category, s.defaultPriority)
  }

  /** The fallback's priority is strictly above that of every other key. */
  predicate FallbackHighest(d: Table, fallback: string) {
    forall i, j :: 0 <= i < |d| && 0 <= j < |d| && d[i].0 == fallback && d[j].0 != fallback ==> d[j].1 < d[i].1
  }

  /** The table invariants both scripts rely on: every category and the
      fallback have a priority entry, and the fallback sorts after
      everything else. */
  predicate WellFormed(s: Scheme) {
    && HasKey(s.priorities, s.fallback)
    && (forall k :: 0 <= k < |s.categories| ==> HasKey(s.priorities, s.categories[k].name))
    && FallbackHighest(s.priorities, s.fallback)
  }

  /** Every category a page can get is a key of the priority table, so the
      default of `.get` is never used; and a page sorts strictly before the
      fallback exactly when it is not a fallback page. */
  lemma CategoryPriority(s: Scheme, text: string)
    requires WellFormed(s)
    ensures HasKey(s.priorities, Categorize(s, text))
    ensures Categorize(s, text) != s.fallback <==>
              PriorityOf(s, Categorize(s, text)) < PriorityOf(s, s.fallback)
  {
    var c := Categorize(s, text);
    var f := FirstKeyExists(s.priorities, s.fallback);
    if c != s.fallback {
      var k :| 0 <= k < |s.categories| && s.categories[k].name == c;
      assert HasKey(s.priorities, s.categories[k].name);
      var i := FirstKeyExists(s.priorities, c);
      assert s.priorities[i].1 < s.priorities[f].1;
    }
  }
}

/**
  One run of a sorter script once the document is reduced to the text of each
  page: build the page list, sort it on priority, and emit the pages in that
  order (`writer.add_page(page)` for each tuple). Pages are their 0-based
  indices.
 */
module Pipeline {
  import opened Scheme
  import opened Ledger
  import opened PrioritySort

  /** The pages of the tuples, in list order: what is written to the output
      document. */
  function Pages(l: seq<Entry>): (pages: seq<nat>)
    ensures |pages| == |l|
    ensures forall k :: 0 <= k < |l| ==> pages[k] == l[k].page
  {
    if l == [] then [] else [l[0].page] + Pages(l[1..])
  }

  /** The page indices of a document with `n` pages, `range(n)`. */
  function Range(n: nat): (r: seq<nat>)
    ensures |r| == n
    ensures forall i :: 0 <= i < n ==> r[i] == i
  {
    if n == 0 then [] else Range(n - 1) + [n - 1]
  }

  /** Every index below `n` occurs once in `Range(n)`, no other value does. */
  lemma {:induction false} RangeOnce(n: nat, p: nat)
    ensures multiset(Range(n))[p] == if p < n then 1 else 0
    decreases n
  {
    if n > 0 {
      RangeOnce(n - 1, p);
      assert multiset(Range(n)) == multiset(Range(n - 1)) + multiset{(n - 1) as nat};
    }
  }

  lemma {:induction false} InsertPages(x: Entry, l: seq<Entry>)
    ensures multiset(Pages(Insert(x, l))) == multiset(Pages(l)) + multiset{x.page}
    decreases |l|
  {
    if l == [] || x.priority <= l[0].priority {
      assert Pages([x] + l) == [x.page] + Pages(l);
    } else {
      InsertPages(x, l[1..]);
      assert Pages([l[0]] + Insert(x, l[1..])) == [l[0].page] + Pages(Insert(x, l[1..]));
      assert Pages(l) == [l[0].page] + Pages(l[1..]);
    }
  }

  /** Sorting neither loses nor duplicates a page. */
  lemma {:induction false} SortKeepsPages(l: seq<Entry>)
    ensures multiset(Pages(SortByPriority(l))) == multiset(Pages(l))
    decreases |l|
  {
    if l != [] {
      SortKeepsPages(l[1..]);
      InsertPages(l[0], SortByPriority(l[1..]));
      assert Pages(l) == [l[0].page] + Pages(l[1..]);
    }
  }

  lemma {:induction false} InsertCount(x: Entry, l: seq<Entry>, category: string)
    ensures Count(Insert(x, l), category) == Count(l, category) + (if x.category == category then 1 else 0)
    decreases |l|
  {
    if l == [] || x.priority <= l[0].priority {
      assert ([x] + l)[1..] == l;
    } else {
      InsertCount(x, l[1..], category);
      assert ([l[0]] + Insert(x, l[1..]))[1..] == Insert(x, l[1..]);
    }
  }

  /** Sorting keeps the number of tuples of every category. */
  lemma {:induction false} SortKeepsCount(l: seq<Entry>, category: string)
    ensures Count(SortByPriority(l), category) == Count(l, category)
    decreases |l|
  {
    if l != [] {
      SortKeepsCount(l[1..], category);
      InsertCount(l[0], SortByPriority(l[1..]), category);
    }
  }

  /** The sorted page list of a document with `n` pages holds every page
      exactly once. */
  lemma PageConservation(s: Scheme, texts: seq<string>, ledger: seq<Entry>)
    requires IsLedgerOf(s, texts, ledger)
    ensures |SortByPriority(ledger)| == |texts|
    ensures multiset(Pages(SortByPriority(ledger))) == multiset(Range(|texts|))
  {
    SortKeepsPages(ledger);
    assert Pages(ledger) == Range(|texts|);
  }

  /** In the sorted page list, once a fallback tuple appears, only fallback
      tuples follow: the fallback sorts after every real category. */
  lemma FallbackAfterOthers(s: Scheme, texts: seq<string>, ledger: seq<Entry>)
    requires WellFormed(s) && IsLedgerOf(s, texts, ledger)
    ensures forall a, b :: 0 <= a < b < |ledger| && SortByPriority(ledger)[a].category == s.fallback ==>
              SortByPriority(ledger)[b].category == s.fallback
  {
    var sorted := SortByPriority(ledger);
    forall a, b | 0 <= a < b < |sorted| && sorted[a].category == s.fallback
      ensures sorted[b].category == s.fallback
    {
      assert sorted[a] in multiset(ledger) && sorted[b] in multiset(ledger);
      LedgerEntry(s, texts, ledger, sorted[a]);
      LedgerEntry(s, texts, ledger, sorted[b]);
      CategoryPriority(s, texts[sorted[b].page]);
    }
  }

  /** In a list where fallback tuples only ever follow each other, they are
      exactly its last `Count` tuples. */
  lemma {:induction false} FallbackSuffix(l: seq<Entry>, fallback: string)
    requires forall a, b :: 0 <= a < b < |l| && l[a].category == fallback ==> l[b].category == fallback
    ensures Count(l, fallback) <= |l|
    ensures forall k :: 0 <= k < |l| ==> (|l| - Count(l, fallback) <= k <==> l[k].category == fallback)
    decreases |l|
  {
    if l != [] {
      FallbackSuffix(l[1..], fallback);
      if l[0].category == fallback {
        assert forall k :: 0 < k < |l| ==> l[k] == l[1..][k - 1];
      }
    }
  }

  /** The priority a page gets from its text. */
  function PagePriority(s: Scheme, texts: seq<string>, p: nat): int
    requires p < |texts|
  {
    PriorityOf(s, Categorize(s, texts[p]))
  }

  /** Each tuple of the sorted list is the tuple built for its own page. */
  lemma SortedEntries(s: Scheme, texts: seq<string>, ledger: seq<Entry>)
    requires IsLedgerOf(s, texts, ledger)
    ensures forall k :: 0 <= k < |SortByPriority(ledger)| ==>
              && SortByPriority(ledger)[k].page < |texts|
              && SortByPriority(ledger)[k] == EntryFor(s, texts[SortByPriority(ledger)[k].page], SortByPriority(ledger)[k].page)
  {
    var sorted := SortByPriority(ledger);
    forall k | 0 <= k < |sorted|
      ensures sorted[k].page < |texts| && sorted[k] == EntryFor(s, texts[sorted[k].page], sorted[k].page)
    {
      assert sorted[k] in multiset(ledger);
      LedgerEntry(s, texts, ledger, sorted[k]);
    }
  }

  /** The output holds every page of the document exactly once. */
  lemma OutputIsPermutation(s: Scheme, texts: seq<string>, ledger: seq<Entry>)
    requires IsLedgerOf(s, texts, ledger)
    ensures |Pages(SortByPriority(ledger))| == |texts|
    ensures forall k :: 0 <= k < |texts| ==> Pages(SortByPriority(ledger))[k] < |texts|
    ensures forall p :: 0 <= p < |texts| ==> multiset(Pages(SortByPriority(ledger)))[p] == 1
  {
    PageConservation(s, texts, ledger);
    SortedEntries(s, texts, ledger);
    forall p | 0 <= p < |texts|
      ensures multiset(Pages(SortByPriority(ledger)))[p] == 1
    {
      RangeOnce(|texts|, p);
    }
  }

  /** In the output, page priorities never decrease, and pages of equal
      priority keep their document order. */
  lemma OutputOrder(s: Scheme, texts: seq<string>, ledger: seq<Entry>)
    requires IsLedgerOf(s, texts, ledger)
    ensures forall a, b :: 0 <= a < b < |ledger| ==>
              && SortByPriority(ledger)[a].priority <= SortByPriority(ledger)[b].priority
              && (SortByPriority(ledger)[a].priority == SortByPriority(ledger)[b].priority ==>
                    SortByPriority(ledger)[a].page < SortByPriority(ledger)[b].page)
  {
    assert PageNumbersAscending(ledger);
    SortKeyAscending(ledger);
    SortedEntries(s, texts, ledger);
    var sorted := SortByPriority(ledger);
    forall a, b | 0 <= a < b < |ledger|
      ensures sorted[a].priority <= sorted[b].priority
      ensures sorted[a].priority == sorted[b].priority ==> sorted[a].page < sorted[b].page
    {
      assert Before(sorted[a], sorted[b]);
      assert sorted[a].pageNumber == sorted[a].page + 1;
      assert sorted[b].pageNumber == sorted[b].page + 1;
    }
  }

  /** With a well-formed table the fallback pages are exactly the last
      `Count(ledger, fallback)` pages of the output. */
  lemma OutputFallbackSuffix(s: Scheme, texts: seq<string>, ledger: seq<Entry>)
    requires WellFormed(s) && IsLedgerOf(s, texts, ledger)
    ensures Count(ledger, s.fallback) <= |ledger|
    ensures forall k :: 0 <= k < |ledger| ==>
              (|ledger| - Count(ledger, s.fallback) <= k <==> SortByPriority(ledger)[k].category == s.fallback)
  {
    SortKeepsCount(ledger, s.fallback);
    FallbackAfterOthers(s, texts, ledger);
    FallbackSuffix(SortByPriority(ledger), s.fallback);
  }

  /** `sort_shipping_labels` on the page texts of a document: the order in
      which the pages are written, and the number of fallback pages. Every
      page is written exactly once; priorities never decrease; pages of equal
      priority keep their document order; and with a well-formed table the
      fallback pages are exactly the last `fallbackCount` ones. */
  method SortPages(s: Scheme, texts: seq<string>) returns (order: seq<nat>, fallbackCount: nat)
    ensures |order| == |texts|
    ensures forall k :: 0 <= k < |order| ==> order[k] < |texts|
    ensures forall p :: 0 <= p < |texts| ==> multiset(order)[p] == 1
    ensures forall a, b :: 0 <= a < b < |order| ==>
              PagePriority(s, texts, order[a]) <= PagePriority(s, texts, order[b])
    ensures forall a, b :: 0 <= a < b < |order| && PagePriority(s, texts, order[a]) == PagePriority(s, texts, order[b]) ==>
              order[a] < order[b]
    ensures WellFormed(s) ==>
              && fallbackCount <= |order|
              && forall k :: 0 <= k < |order| ==>
                   (|order| - fallbackCount <= k <==> Categorize(s, texts[order[k]]) == s.fallback)
  {
    var ledger;
    ledger, fallbackCount := BuildLedger(s, texts);
    var sorted := SortByPriority(ledger);
    order := Pages(sorted);
    OutputIsPermutation(s, texts, ledger);
    SortedEntries(s, texts, ledger);
    OutputOrder(s, texts, ledger);
    if WellFormed(s) {
      OutputFallbackSuffix(s, texts, ledger);
    }
  }
}

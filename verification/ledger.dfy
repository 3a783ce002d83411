/**
  The page list both scripts build while scanning the document: one
  `(priority, page_number, category, page)` tuple per page, appended in page
  order, together with the count of pages that fell back (the carrier
  script's `unknown_count`).
 */
module Ledger {
  import opened Scheme

  /** One tuple of the page list. `page` is the 0-based page index, which
      stands for the PDF page object copied to the output. */
  datatype Entry = Entry(priority: int, pageNumber: nat, category: string, page: nat)

  /** The tuple appended for page `i` whose text is `text`. */
  function EntryFor(s: Scheme, text: string, i: nat): Entry {
    var c := Categorize(s, text);
    Entry(PriorityOf(s, c), i + 1, c, i)
  }

  /** `ledger` holds exactly one tuple per page, in page order. */
  predicate IsLedgerOf(s: Scheme, texts: seq<string>, ledger: seq<Entry>) {
    |ledger| == |texts| && forall i :: 0 <= i < |texts| ==> ledger[i] == EntryFor(s, texts[i], i)
  }

  /** The number of tuples with the given category. */
  function Count(l: seq<Entry>, category: string): nat {
    if l == [] then 0 else (if l[0].category == category then 1 else 0) + Count(l[1..], category)
  }

  lemma {:induction false} CountAppend(l: seq<Entry>, e: Entry, category: string)
    ensures Count(l + [e], category) == Count(l, category) + (if e.category == category then 1 else 0)
    decreases |l|
  {
    if l != [] {
      assert (l + [e])[1..] == l[1..] + [e];
      CountAppend(l[1..], e, category);
    }
  }

  /** The scanning loop: one tuple per page in page order, counting the
      pages whose category is the fallback on the way. */
  method BuildLedger(s: Scheme, texts: seq<string>) returns (ledger: seq<Entry>, fallbackCount: nat)
    ensures IsLedgerOf(s, texts, ledger)
    ensures fallbackCount == Count(ledger, s.fallback)
  {
    ledger := [];
    fallbackCount := 0;
    var i := 0;
    while i < |texts|
      invariant 0 <= i <= |texts|
      invariant IsLedgerOf(s, texts[..i], ledger)
      invariant fallbackCount == Count(ledger, s.fallback)
    {
      var category := Categorize(s, texts[i]);
      var priority := PriorityOf(s, category);
      if category == s.fallback {
        fallbackCount := fallbackCount + 1;
      }
      CountAppend(ledger, Entry(priority, i + 1, category, i), s.fallback);
      ledger := ledger + [Entry(priority, i + 1, category, i)];
      i := i + 1;
    }
    assert texts[..i] == texts;
  }

  /** Every tuple of a ledger describes its own page: the page exists, and
      the tuple is the one built from that page's text. */
  lemma LedgerEntry(s: Scheme, texts: seq<string>, ledger: seq<Entry>, e: Entry)
    requires IsLedgerOf(s, texts, ledger) && e in ledger
    ensures e.page < |texts| && e == EntryFor(s, texts[e.page], e.page)
  {
    var i :| 0 <= i < |ledger| && ledger[i] == e;
  }
}

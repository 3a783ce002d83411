/**
  `ledger.sort(key=lambda x: x[0])`: a stable sort of the page list keyed on
  priority alone. It is modelled as an insertion sort; the uniqueness lemmas
  at the end show that every stable sort, Python's included, gives the same
  list, and that the list is the one ordered by (priority, page number).
 */
module PrioritySort {
  import opened Ledger

  /** Priorities never decrease along the list. */
  predicate Sorted(l: seq<Entry>) {
    forall i, j :: 0 <= i < j < |l| ==> l[i].priority <= l[j].priority
  }

  /** Puts `x` in front of the first tuple whose priority is not smaller, so
      `x` goes before the tuples of equal priority. */
  function Insert(x: Entry, l: seq<Entry>): (r: seq<Entry>)
    ensures multiset(r) == multiset(l) + multiset{x}
    ensures |r| == |l| + 1
    ensures Sorted(l) ==> Sorted(r)
  {
    if l == [] || x.priority <= l[0].priority then
      [x] + l
    else
      var t := Insert(x, l[1..]);
      InsertStep(x, l, t);
      [l[0]] + t
  }

  /** The recursive case of `Insert`: `l[0]` stays in front of the list
      into which `x` was inserted. */
  lemma InsertStep(x: Entry, l: seq<Entry>, t: seq<Entry>)
    requires l != [] && l[0].priority < x.priority
    requires multiset(t) == multiset(l[1..]) + multiset{x}
    requires Sorted(l[1..]) ==> Sorted(t)
    ensures multiset([l[0]] + t) == multiset(l) + multiset{x}
    ensures Sorted(l) ==> Sorted([l[0]] + t)
  {
    assert l == [l[0]] + l[1..];
    if Sorted(l) {
      forall e | e in t
        ensures l[0].priority <= e.priority
      {
        assert e in multiset(t);
        if e != x {
          assert e in l[1..];
        }
      }
      assert Sorted(l[1..]);
    }
  }

  /** The sorted page list: a permutation of `l` with non-decreasing
      priorities. */
  function SortByPriority(l: seq<Entry>): (r: seq<Entry>)
    ensures multiset(r) == multiset(l)
    ensures |r| == |l|
    ensures Sorted(r)
  {
    if l == [] then
      []
    else
      assert l == [l[0]] + l[1..];
      Insert(l[0], SortByPriority(l[1..]))
  }

  // ---------------------------------------------------------------------------
  // Stability
  // ---------------------------------------------------------------------------

  /** The tuples of priority `p`, in list order. */
  function WithPriority(l: seq<Entry>, p: int): seq<Entry> {
    if l == [] then [] else (if l[0].priority == p then [l[0]] else []) + WithPriority(l[1..], p)
  }

  lemma {:induction false} WithPriorityMembers(l: seq<Entry>, p: int)
    ensures forall e :: e in WithPriority(l, p) ==> e in l && e.priority == p
    decreases |l|
  {
    if l != [] {
      WithPriorityMembers(l[1..], p);
    }
  }

  lemma {:induction false} InsertWithPriority(x: Entry, l: seq<Entry>, p: int)
    ensures WithPriority(Insert(x, l), p) == (if x.priority == p then [x] else []) + WithPriority(l, p)
    decreases |l|
  {
    if l == [] || x.priority <= l[0].priority {
      assert ([x] + l)[1..] == l;
    } else {
      var t := Insert(x, l[1..]);
      InsertWithPriority(x, l[1..], p);
      assert ([l[0]] + t)[1..] == t;
      assert WithPriority(Insert(x, l), p) == (if l[0].priority == p then [l[0]] else []) + WithPriority(t, p);
      assert WithPriority(l, p) == (if l[0].priority == p then [l[0]] else []) + WithPriority(l[1..], p);
      if x.priority == p {
        assert l[0].priority != p;
      }
    }
  }

  /** The sort is stable: for every priority, the tuples of that priority
      keep their relative order. */
  lemma {:induction false} SortStable(l: seq<Entry>, p: int)
    ensures WithPriority(SortByPriority(l), p) == WithPriority(l, p)
    decreases |l|
  {
    if l != [] {
      SortStable(l[1..], p);
      InsertWithPriority(l[0], SortByPriority(l[1..]), p);
    }
  }

  /** Sorting an already sorted list leaves it as it is. */
  lemma {:induction false} SortedUnchanged(l: seq<Entry>)
    requires Sorted(l)
    ensures SortByPriority(l) == l
    decreases |l|
  {
    if l != [] {
      SortedUnchanged(l[1..]);
      assert l == [l[0]] + l[1..];
    }
  }

  /** A second sort moves nothing. */
  lemma SortIdempotent(l: seq<Entry>)
    ensures SortByPriority(SortByPriority(l)) == SortByPriority(l)
  {
    SortedUnchanged(SortByPriority(l));
  }

  /** Two sorted lists with the same tuples of every priority, in the same
      order, are equal. */
  lemma {:induction false} SortedByFilters(r: seq<Entry>, s: seq<Entry>)
    requires Sorted(r) && Sorted(s)
    requires forall p :: WithPriority(r, p) == WithPriority(s, p)
    ensures r == s
    decreases |r|
  {
    if r != [] {
      var p := r[0].priority;
      assert WithPriority(r, p) == [r[0]] + WithPriority(r[1..], p);
      assert s != [];
      var q := s[0].priority;
      assert WithPriority(s, q) == [s[0]] + WithPriority(s[1..], q);
      WithPriorityMembers(r, q);
      WithPriorityMembers(s, p);
      assert WithPriority(r, q)[0] in r;
      assert WithPriority(s, p)[0] in s;
      assert p == q;
      assert r[0] == s[0];
      forall p' | true
        ensures WithPriority(r[1..], p') == WithPriority(s[1..], p')
      {
        var head := if r[0].priority == p' then [r[0]] else [];
        assert WithPriority(r, p') == head + WithPriority(r[1..], p');
        assert WithPriority(s, p') == head + WithPriority(s[1..], p');
        assert (head + WithPriority(r[1..], p'))[|head|..] == WithPriority(r[1..], p');
        assert (head + WithPriority(s[1..], p'))[|head|..] == WithPriority(s[1..], p');
      }
      SortedByFilters(r[1..], s[1..]);
      assert r == [r[0]] + r[1..] && s == [s[0]] + s[1..];
    }
  }

  /** Any stable sort of `l` on priority, Python's `list.sort` among them,
      yields exactly `SortByPriority(l)`. */
  lemma StableSortUnique(l: seq<Entry>, r: seq<Entry>)
    requires Sorted(r)
    requires forall p :: WithPriority(r, p) == WithPriority(l, p)
    ensures r == SortByPriority(l)
  {
    forall p | true
      ensures WithPriority(r, p) == WithPriority(SortByPriority(l), p)
    {
      SortStable(l, p);
    }
    SortedByFilters(r, SortByPriority(l));
  }

  // ---------------------------------------------------------------------------
  // Order on (priority, page number)
  // ---------------------------------------------------------------------------

  /** `a` comes before `b` in the order on (priority, page number). */
  predicate Before(a: Entry, b: Entry) {
    a.priority < b.priority || (a.priority == b.priority && a.pageNumber < b.pageNumber)
  }

  /** The list is strictly ascending on (priority, page number). */
  predicate KeyAscending(l: seq<Entry>) {
    forall i, j :: 0 <= i < j < |l| ==> Before(l[i], l[j])
  }

  /** Page numbers strictly ascend, as in a freshly built ledger. */
  predicate PageNumbersAscending(l: seq<Entry>) {
    forall i, j :: 0 <= i < j < |l| ==> l[i].pageNumber < l[j].pageNumber
  }

  lemma {:induction false} InsertKeyAscending(x: Entry, l: seq<Entry>)
    requires KeyAscending(l)
    requires forall e :: e in l ==> x.pageNumber < e.pageNumber
    ensures KeyAscending(Insert(x, l))
    decreases |l|
  {
    if l != [] && x.priority > l[0].priority {
      InsertKeyAscending(x, l[1..]);
      var t := Insert(x, l[1..]);
      forall e | e in t
        ensures Before(l[0], e)
      {
        assert e in multiset(t);
        if e != x {
          assert e in l[1..];
        }
      }
    }
  }

  /** On a ledger whose page numbers ascend, the stable sort on priority
      orders the tuples by (priority, page number): equal priorities keep
      ascending page numbers. */
  lemma {:induction false} SortKeyAscending(l: seq<Entry>)
    requires PageNumbersAscending(l)
    ensures KeyAscending(SortByPriority(l))
    decreases |l|
  {
    if l != [] {
      SortKeyAscending(l[1..]);
      var t := SortByPriority(l[1..]);
      forall e | e in t
        ensures l[0].pageNumber < e.pageNumber
      {
        assert e in multiset(t);
        assert e in l[1..];
      }
      InsertKeyAscending(l[0], t);
    }
  }

  /** Two strictly key-ascending lists holding the same tuples start with
      the same tuple: the least one. */
  lemma KeyAscendingHeads(a: seq<Entry>, b: seq<Entry>)
    requires KeyAscending(a) && KeyAscending(b)
    requires multiset(a) == multiset(b) && a != []
    ensures b != [] && a[0] == b[0]
  {
    assert a[0] in multiset(b);
    var j :| 0 <= j < |b| && b[j] == a[0];
    assert b[0] in multiset(a);
    var i :| 0 <= i < |a| && a[i] == b[0];
    if j != 0 {
      assert false;
    }
  }

  /** Two strictly key-ascending lists holding the same tuples are equal. */
  lemma {:induction false} KeyAscendingUnique(a: seq<Entry>, b: seq<Entry>)
    requires KeyAscending(a) && KeyAscending(b)
    requires multiset(a) == multiset(b)
    ensures a == b
    decreases |a|
  {
    if a == [] {
      assert |b| == |multiset(b)| == 0;
    } else {
      KeyAscendingHeads(a, b);
      assert a == [a[0]] + a[1..] && b == [b[0]] + b[1..];
      assert multiset(a[1..]) == multiset(a) - multiset{a[0]};
      assert multiset(b[1..]) == multiset(b) - multiset{b[0]};
      KeyAscendingUnique(a[1..], b[1..]);
    }
  }

  /** Sorting stably on priority equals sorting on (priority, page number):
      the result is the one permutation of the ledger that ascends on that
      pair. */
  lemma SortIsKeyOrder(l: seq<Entry>, r: seq<Entry>)
    requires PageNumbersAscending(l)
    requires multiset(r) == multiset(l) && KeyAscending(r)
    ensures r == SortByPriority(l)
  {
    SortKeyAscending(l);
    KeyAscendingUnique(r, SortByPriority(l));
  }
}

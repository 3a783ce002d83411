/**
  String operations the classifiers rely on: Python's `str.upper()` (restricted
  to ASCII letters), the substring test `w in t`, and `" ".join(parts)`, which
  turns the recognised OCR fragments of a page into one text.
 */
module Text {

  predicate IsLowerAscii(c: char) {
    'a' <= c <= 'z'
  }

  /** Upper-cases one character: an ASCII lower-case letter becomes its
      capital, every other character is returned unchanged. */
  function UpperChar(c: char): (u: char)
    ensures !IsLowerAscii(u)
    ensures IsLowerAscii(c) ==> 'A' <= u <= 'Z' && u as int + 32 == c as int
    ensures !IsLowerAscii(c) ==> u == c
  {
    if IsLowerAscii(c) then (c as int - 32) as char else c
  }

  /** `s.upper()`: every character is upper-cased on its own, so the length
      is kept and no lower-case letter is left. */
  function Upper(s: string): (u: string)
    ensures |u| == |s|
    ensures forall i :: 0 <= i < |s| ==> u[i] == UpperChar(s[i])
    ensures forall i :: 0 <= i < |u| ==> !IsLowerAscii(u[i])
  {
    if s == [] then [] else [UpperChar(s[0])] + Upper(s[1..])
  }

  /** Upper-casing twice is upper-casing once. */
  lemma UpperIdempotent(s: string)
    ensures Upper(Upper(s)) == Upper(s)
  {
    assert forall i :: 0 <= i < |s| ==> Upper(Upper(s))[i] == Upper(s)[i];
  }

  // ---------------------------------------------------------------------------
  // Substrings
  // ---------------------------------------------------------------------------

  /** `w` occurs in `t` starting at index `i`. */
  ghost predicate OccursAt(w: string, t: string, i: int) {
    0 <= i && i + |w| <= |t| && t[i..i + |w|] == w
  }

  /** `w` occurs somewhere in `t`. */
  ghost predicate IsSubstring(w: string, t: string) {
    exists i :: OccursAt(w, t, i)
  }

  /** An occurrence in `t[1..]` is an occurrence in `t` one position later. */
  lemma OccursAtShift(w: string, t: string, i: int)
    requires |t| > 0 && 0 <= i
    ensures OccursAt(w, t[1..], i) <==> OccursAt(w, t, i + 1)
  {
    if 0 <= i && i + |w| <= |t| - 1 {
      assert t[1..][i..i + |w|] == t[i + 1..i + 1 + |w|];
    }
  }

  /** A word that is not a prefix of a non-empty `t` occurs in `t` exactly
      when it occurs in `t[1..]`. */
  lemma SubstringStep(w: string, t: string)
    requires |t| > 0 && !(w <= t)
    ensures IsSubstring(w, t) <==> IsSubstring(w, t[1..])
  {
    if IsSubstring(w, t[1..]) {
      var i :| OccursAt(w, t[1..], i);
      OccursAtShift(w, t, i);
    }
    if IsSubstring(w, t) {
      var i :| OccursAt(w, t, i);
      if i == 0 {
        assert w == t[..|w|];
      }
      OccursAtShift(w, t, i - 1);
    }
  }

  /** Python's `w in t`: tries the start positions of `t` from the left. */
  function Contains(t: string, w: string): (b: bool)
    ensures b <==> IsSubstring(w, t)
    decreases |t|
  {
    if w <= t then
      assert OccursAt(w, t, 0);
      true
    else if |t| == 0 then
      false
    else
      SubstringStep(w, t);
      Contains(t[1..], w)
  }

  /** The empty string contains no non-empty word. */
  lemma EmptyContainsNothing(w: string)
    requires |w| > 0
    ensures !Contains("", w)
  {
  }

  /** Being a substring is transitive: a word inside a word inside `t` is
      inside `t`. */
  lemma ContainsTransitive(t: string, u: string, w: string)
    requires Contains(t, u) && Contains(u, w)
    ensures Contains(t, w)
  {
    var i :| OccursAt(u, t, i);
    var j :| OccursAt(w, u, j);
    forall k | 0 <= k < |w|
      ensures t[i + j..i + j + |w|][k] == w[k]
    {
      assert t[i..i + |u|][j + k] == u[j + k];
      assert u[j..j + |w|][k] == u[j + k];
    }
    assert OccursAt(w, t, i + j);
  }

  /** An occurrence survives upper-casing of both strings. */
  lemma UpperKeepsOccurrence(w: string, t: string, i: int)
    requires OccursAt(w, t, i)
    ensures OccursAt(Upper(w), Upper(t), i)
  {
    assert Upper(t)[i..i + |w|] == Upper(w);
  }

  // ---------------------------------------------------------------------------
  // Joining OCR fragments
  // ---------------------------------------------------------------------------

  /** `" ".join(parts)`: the parts in order, separated by single spaces. */
  function Join(parts: seq<string>): (s: string)
    ensures parts == [] ==> s == ""
    ensures |parts| == 1 ==> s == parts[0]
  {
    if parts == [] then ""
    else if |parts| == 1 then parts[0]
    else parts[0] + " " + Join(parts[1..])
  }

  /** Where part `k` starts in `Join(parts)`: after every earlier part and
      the single space that follows it. */
  function Offset(parts: seq<string>, k: nat): nat
    requires k <= |parts|
  {
    if k == 0 then 0 else Offset(parts, k - 1) + |parts[k - 1]| + 1
  }

  /** Offsets of `parts[1..]` are those of `parts` less the first part and
      its separator. */
  lemma {:induction false} OffsetShift(parts: seq<string>, k: nat)
    requires 0 < |parts| && k < |parts|
    ensures Offset(parts, k + 1) == Offset(parts[1..], k) + |parts[0]| + 1
    decreases k
  {
    if k > 0 {
      OffsetShift(parts, k - 1);
    }
  }

  /** The joined text is as long as its parts plus one space between each
      two neighbours. */
  lemma {:induction false} JoinLength(parts: seq<string>)
    requires parts != []
    ensures |Join(parts)| + 1 == Offset(parts, |parts|)
    decreases |parts|
  {
    if |parts| > 1 {
      JoinLength(parts[1..]);
      OffsetShift(parts, |parts| - 1);
    }
  }

  /** Part `k` sits at `Offset(parts, k)` in the joined text. */
  lemma {:induction false} JoinPart(parts: seq<string>, k: nat)
    requires k < |parts|
    ensures OccursAt(parts[k], Join(parts), Offset(parts, k))
    decreases k
  {
    var s := Join(parts);
    if k == 0 {
      assert s[..|parts[0]|] == parts[0];
    } else {
      var rest := parts[1..];
      JoinPart(rest, k - 1);
      OffsetShift(parts, k - 1);
      var o := Offset(rest, k - 1);
      var h := |parts[0]| + 1;
      assert s == parts[0] + " " + Join(rest);
      assert s[o + h..o + h + |parts[k]|] == Join(rest)[o..o + |rest[k - 1]|];
    }
  }

  /** A single space follows every part but the last. */
  lemma {:induction false} JoinSeparator(parts: seq<string>, k: nat)
    requires k < |parts| - 1
    ensures Offset(parts, k) + |parts[k]| < |Join(parts)|
    ensures Join(parts)[Offset(parts, k) + |parts[k]|] == ' '
    decreases k
  {
    var s := Join(parts);
    var rest := parts[1..];
    assert s == parts[0] + " " + Join(rest);
    if k > 0 {
      JoinSeparator(rest, k - 1);
      OffsetShift(parts, k - 1);
      assert s[Offset(parts, k) + |parts[k]|] == Join(rest)[Offset(rest, k - 1) + |rest[k - 1]|];
    }
  }

  /** Every fragment of a joined text, upper-cased, is found in the
      upper-cased joined text; so is every word found in a fragment. */
  lemma JoinKeepsWords(parts: seq<string>, k: nat, w: string)
    requires k < |parts|
    requires Contains(Upper(parts[k]), w)
    ensures Contains(Upper(Join(parts)), w)
  {
    JoinPart(parts, k);
    UpperKeepsOccurrence(parts[k], Join(parts), Offset(parts, k));
    ContainsTransitive(Upper(Join(parts)), Upper(parts[k]), w);
  }
}

/**
  Meesho_shipping_lable.py: shipping labels grouped by courier partner. Each
  page is read by OCR, `detect_carrier` finds the first carrier with a
  keyword variant in the upper-cased text, and the page is sorted on that
  carrier's priority; pages without a carrier are "UNKNOWN" and counted.
 */
module CarrierSorter {
  import opened Text
  import opened Classifier
  import opened PriorityTable
  import opened Scheme
  import opened Pipeline

  const Unknown := "UNKNOWN"
  const UnknownPriority := 99

  /** `CARRIER_KEYWORDS`: each carrier with its spellings and
      common OCR misreads, in the order they are tried. */
  const CarrierKeywords: seq<Category> := [
    Category("VALMO PICKUP", ["VALMO", "VALMO PICK", "VALMO PICKUP"]),
    Category("SHADOWFAX PICKUP", ["SHADOWFAX", "SHADOW FAX", "SHADOFAX", "SHADOWFAX PICKUP"]),
    Category("DELHIVERY PICKUP", ["DELHIVERY", "DELHIVRY", "DELHVERY", "DELHIVERY PICKUP"]),
    Category("XPRESS BEES", ["XPRESS", "XPRESSBEES", "XPRESS BEES", "XPRESS-BEES", "XPRESSBEE"])
  ]

  /** `CARRIER_PRIORITY`, local to `sort_shipping_labels`. */
  const CarrierPriority: Table := [
    ("VALMO PICKUP", 1),
    ("SHADOWFAX PICKUP", 2),
    ("DELHIVERY PICKUP", 3),
    ("XPRESS BEES", 4),
    (Unknown, UnknownPriority)
  ]

  /** The default given to `CARRIER_PRIORITY.get` is the "UNKNOWN" priority. */
  const CarrierScheme := Scheme(CarrierKeywords, Unknown, CarrierPriority, UnknownPriority)

  /** The five values `detect_carrier` can return. */
  predicate IsCarrierName(c: string) {
    c in {"VALMO PICKUP", "SHADOWFAX PICKUP", "DELHIVERY PICKUP", "XPRESS BEES", Unknown}
  }

  // ---------------------------------------------------------------------------
  // detect_carrier
  // ---------------------------------------------------------------------------

  /** `detect_carrier(text)`: one of the four carriers, or "UNKNOWN". */
  function DetectCarrier(text: string): (carrier: string)
    ensures IsCarrierName(carrier)
    ensures HasKey(CarrierPriority, carrier)
  {
    var carrier := Categorize(CarrierScheme, text);
    assert carrier == Unknown || exists k :: 0 <= k < 4 && carrier == CarrierKeywords[k].name;
    assert CarrierPriority[4].0 == Unknown;
    assert forall k :: 0 <= k < 4 ==> CarrierPriority[k].0 == CarrierKeywords[k].name;
    carrier
  }

  /** The carrier tables are well formed: every carrier has a priority and
      "UNKNOWN" sorts after all four. */
  lemma CarrierSchemeWellFormed()
    ensures WellFormed(CarrierScheme)
    ensures DistinctKeys(CarrierPriority)
  {
    assert CarrierPriority[4].0 == Unknown;
    forall k | 0 <= k < |CarrierKeywords|
      ensures HasKey(CarrierPriority, CarrierKeywords[k].name)
    {
      assert CarrierPriority[k].0 == CarrierKeywords[k].name;
    }
  }

  /** The priorities follow the order of the keyword table, 1 to 4, and an
      unknown page gets 99, whatever default `.get` is given. */
  lemma CarrierPriorityOrder(default: int)
    ensures forall k :: 0 <= k < |CarrierKeywords| ==> Get(CarrierPriority, CarrierKeywords[k].name, default) == k + 1
    ensures Get(CarrierPriority, Unknown, default) == UnknownPriority
  {
    CarrierSchemeWellFormed();
    forall k | 0 <= k < |CarrierKeywords|
      ensures Get(CarrierPriority, CarrierKeywords[k].name, default) == k + 1
    {
      GetDistinct(CarrierPriority, k, default);
    }
    GetDistinct(CarrierPriority, 4, default);
  }

  /** "UNKNOWN" is returned exactly when no keyword of any carrier occurs in
      the upper-cased text. */
  lemma DetectCarrierUnknownIff(text: string)
    ensures DetectCarrier(text) == Unknown <==>
              forall k, w :: 0 <= k < |CarrierKeywords| && 0 <= w < |CarrierKeywords[k].keywords| ==>
                !Contains(Upper(text), CarrierKeywords[k].keywords[w])
  {
    ClassifyFallbackIff(CarrierKeywords, Unknown, text);
  }

  /** First match wins: carrier `k` is returned exactly when it is the first
      carrier of the table with a keyword in the upper-cased text. */
  lemma DetectCarrierFirstMatch(text: string, k: nat)
    requires k < |CarrierKeywords|
    ensures DetectCarrier(text) == CarrierKeywords[k].name <==> IsFirstHit(CarrierKeywords, Upper(text), k)
  {
    var r := FirstHit(CarrierKeywords, Upper(text));
    if r.Some? && DetectCarrier(text) == CarrierKeywords[k].name {
      assert CarrierKeywords[r.value].name == CarrierKeywords[k].name;
    }
  }

  /** A page with no text at all is "UNKNOWN". */
  lemma DetectCarrierEmpty()
    ensures DetectCarrier("") == Unknown
  {
    CarrierKeywordsNonEmpty();
    ClassifyEmptyText(CarrierKeywords, Unknown);
  }

  lemma CarrierKeywordsNonEmpty()
    ensures KeywordsNonEmpty(CarrierKeywords)
  {
    forall k, w | 0 <= k < |CarrierKeywords| && 0 <= w < |CarrierKeywords[k].keywords|
      ensures |CarrierKeywords[k].keywords[w]| > 0
    {
      assert k == 0 || k == 1 || k == 2 || k == 3;
    }
  }

  /** Only the upper-cased text is inspected, so letter case is ignored. */
  lemma DetectCarrierIgnoresCase(text: string)
    ensures DetectCarrier(Upper(text)) == DetectCarrier(text)
  {
    ClassifyIgnoresCase(CarrierKeywords, Unknown, text);
  }

  /** When every keyword of `c` contains its keyword `v`, the others add
      nothing: `c` is hit exactly when keyword `v` occurs. */
  lemma HitByCoreKeyword(c: Category, v: nat, text: string)
    requires v < |c.keywords|
    requires forall w :: 0 <= w < |c.keywords| ==> Contains(c.keywords[w], c.keywords[v])
    ensures Hit(c, text) <==> Contains(text, c.keywords[v])
  {
    if Hit(c, text) {
      var w :| 0 <= w < |c.keywords| && Contains(text, c.keywords[w]);
      ContainsTransitive(text, c.keywords[w], c.keywords[v]);
    }
  }

  /** Every VALMO variant contains "VALMO" and every XPRESS BEES variant
      contains "XPRESS", so those carriers are recognised by that one word;
      and since VALMO PICKUP is tried first, a label mentioning "VALMO" is a
      VALMO PICKUP label whatever else it reads. */
  lemma CoreKeywords(text: string)
    ensures Hit(CarrierKeywords[0], text) <==> Contains(text, "VALMO")
    ensures Hit(CarrierKeywords[3], text) <==> Contains(text, "XPRESS")
    ensures Contains(Upper(text), "VALMO") ==> DetectCarrier(text) == "VALMO PICKUP"
  {
    var valmo := CarrierKeywords[0];
    assert OccursAt("VALMO", "VALMO", 0);
    assert OccursAt("VALMO", "VALMO PICK", 0);
    assert OccursAt("VALMO", "VALMO PICKUP", 0);
    HitByCoreKeyword(valmo, 0, text);
    HitByCoreKeyword(valmo, 0, Upper(text));
    var xpress := CarrierKeywords[3];
    assert OccursAt("XPRESS", "XPRESS", 0);
    assert OccursAt("XPRESS", "XPRESSBEES", 0);
    assert OccursAt("XPRESS", "XPRESS BEES", 0);
    assert OccursAt("XPRESS", "XPRESS-BEES", 0);
    assert OccursAt("XPRESS", "XPRESSBEE", 0);
    HitByCoreKeyword(xpress, 0, text);
    if Contains(Upper(text), "VALMO") {
      assert IsFirstHit(CarrierKeywords, Upper(text), 0);
    }
  }

  // ---------------------------------------------------------------------------
  // Page text from OCR
  // ---------------------------------------------------------------------------

  /** One EasyOCR detection: the corner points of the text box, the text
      read and the recognizer's confidence. */
  datatype Detection = Detection(box: seq<(int, int)>, text: string, confidence: real)

  /** The texts of the detections, in the order EasyOCR returns them. */
  function Fragments(result: seq<Detection>): (parts: seq<string>)
    ensures |parts| == |result|
    ensures forall k :: 0 <= k < |result| ==> parts[k] == result[k].text
  {
    if result == [] then [] else [result[0].text] + Fragments(result[1..])
  }

  /** The EasyOCR page text: the detected fragments joined by single
      spaces, or the empty text when nothing was detected. */
  function OcrText(result: seq<Detection>): (text: string)
    ensures result == [] ==> text == ""
    ensures |result| == 1 ==> text == result[0].text
  {
    if result != [] then Join(Fragments(result)) else ""
  }

  /** Fragment `k` appears in the page text at its offset, the sum of the
      lengths of the earlier fragments plus one space after each; every
      fragment but the last is followed by a space. */
  lemma OcrTextFragment(result: seq<Detection>, k: nat)
    requires k < |result|
    ensures OccursAt(result[k].text, OcrText(result), Offset(Fragments(result), k))
    ensures k < |result| - 1 ==>
              && Offset(Fragments(result), k) + |result[k].text| < |OcrText(result)|
              && OcrText(result)[Offset(Fragments(result), k) + |result[k].text|] == ' '
  {
    var parts := Fragments(result);
    assert parts[k] == result[k].text;
    JoinPart(parts, k);
    if k < |result| - 1 {
      JoinSeparator(parts, k);
    }
  }

  /** Nothing but the fragments and the separating spaces is in the text. */
  lemma OcrTextLength(result: seq<Detection>)
    requires result != []
    ensures |OcrText(result)| + 1 == Offset(Fragments(result), |result|)
  {
    JoinLength(Fragments(result));
  }

  /** A keyword read inside any one fragment is seen in the joined page
      text, so that page cannot be "UNKNOWN". */
  lemma FragmentKeyword(result: seq<Detection>, f: nat, k: nat, w: nat)
    requires f < |result| && k < |CarrierKeywords| && w < |CarrierKeywords[k].keywords|
    requires Contains(Upper(result[f].text), CarrierKeywords[k].keywords[w])
    ensures Hit(CarrierKeywords[k], Upper(OcrText(result)))
    ensures DetectCarrier(OcrText(result)) != Unknown
  {
    JoinKeepsWords(Fragments(result), f, CarrierKeywords[k].keywords[w]);
    DetectCarrierUnknownIff(OcrText(result));
  }

  /** What was read from one page: EasyOCR detections, or the text
      pytesseract returned. */
  datatype Scan = EasyOcr(result: seq<Detection>) | Tesseract(text: string)

  /** The text `detect_carrier` is given for the page. */
  function PageText(scan: Scan): string {
    match scan
    case EasyOcr(result) => OcrText(result)
    case Tesseract(text) => text
  }

  /** The texts of all pages, in page order. */
  function PageTexts(scans: seq<Scan>): (texts: seq<string>)
    ensures |texts| == |scans|
    ensures forall i :: 0 <= i < |scans| ==> texts[i] == PageText(scans[i])
  {
    if scans == [] then [] else [PageText(scans[0])] + PageTexts(scans[1..])
  }

  // ---------------------------------------------------------------------------
  // sort_shipping_labels
  // ---------------------------------------------------------------------------

  /** The priority a page gets: `CARRIER_PRIORITY.get(found_carrier, 99)`. */
  function CarrierPagePriority(text: string): int {
    PriorityOf(CarrierScheme, DetectCarrier(text))
  }

  /** `sort_shipping_labels` once each page is scanned: the order in which
      the pages are written and `unknown_count`. Every page is written once;
      priorities never decrease; pages of equal priority keep their
      document order; the "UNKNOWN" pages are exactly the last
      `unknownCount` pages. */
  method SortShippingLabels(scans: seq<Scan>) returns (order: seq<nat>, unknownCount: nat)
    ensures |order| == |scans|
    ensures forall k :: 0 <= k < |order| ==> order[k] < |scans|
    ensures forall p :: 0 <= p < |scans| ==> multiset(order)[p] == 1
    ensures forall a, b :: 0 <= a < b < |order| ==>
              CarrierPagePriority(PageText(scans[order[a]])) <= CarrierPagePriority(PageText(scans[order[b]]))
    ensures forall a, b ::
              (0 <= a < b < |order| && CarrierPagePriority(PageText(scans[order[a]])) == CarrierPagePriority(PageText(scans[order[b]]))) ==>
              order[a] < order[b]
    ensures unknownCount <= |order|
    ensures forall k :: 0 <= k < |order| ==>
              (|order| - unknownCount <= k <==> DetectCarrier(PageText(scans[order[k]])) == Unknown)
  {
    CarrierSchemeWellFormed();
    var texts := PageTexts(scans);
    order, unknownCount := SortPages(CarrierScheme, texts);
  }
}

# Shipping label sorter: a Dafny model

The repository holds two scripts that reorder the pages of a PDF of Meesho
shipping labels. Both follow the same pattern:

1. Get each page's text.
2. Classify the page by the first table entry with a keyword that occurs in
   the upper-cased text. Unmatched pages get a fallback category.
3. Look up the category's priority.
4. Stable-sort the pages on that priority and write them out in that order.

`label_sorting_model_base.py` classifies by phone model. Its text comes from
the PDF's text layer. `MODEL_PRIORITY` is both the keyword table and the
priority table, and the fallback is "UNKNOWN MODEL" at 999.
`Meesho_shipping_lable.py` classifies by courier partner. Its text comes from
OCR, either EasyOCR fragments joined by spaces or pytesseract text.
`CARRIER_KEYWORDS` lists the spelling variants and misreads of each carrier,
the priorities are in `CARRIER_PRIORITY`, and the script counts the
"UNKNOWN" pages.

The model is written in functional style. It has these modules:

- `Text`: ASCII upper-casing, substring search (`in` on strings) and
  `" ".join`.
- `Classifier`: the first-match-wins classifier, shared by `detect_model` and
  `detect_carrier`.
- `PriorityTable`: dict literals as insertion-ordered sequences of pairs,
  with `.get`.
- `Scheme`: one script's tables together.
- `Ledger`: the per-page tuple list and the count of fallback pages.
- `PrioritySort`: `list.sort(key=lambda x: x[0])`.
- `Pipeline`: a sort run from page texts to output page order.
- `ModelSorter` and `CarrierSorter`: the two scripts' tables and entry
  points.

A page is its 0-based index, and the output document is the sequence of page
indices written.

## Model

| member | source | states |
|---|---|---|
| Text.UpperChar | label_sorting_model_base.py:113 | upper-casing maps exactly the lower-case ASCII letters to their capitals (32 code points lower) and keeps every other character; non-ASCII letters are kept as they are |
| Text.Upper | Meesho_shipping_lable.py:17 | `text.upper()` keeps the length, maps each character by `UpperChar`, and leaves no lower-case letter |
| Text.UpperIdempotent | Meesho_shipping_lable.py:17 | upper-casing twice is upper-casing once |
| Text.Contains | label_sorting_model_base.py:115 | `w in t` is true exactly when `w` occurs at some position of `t` |
| Text.EmptyContainsNothing | Meesho_shipping_lable.py:20 | no non-empty word is found in the empty text |
| Text.ContainsTransitive | label_sorting_model_base.py:115 | a word inside a word inside a text is inside the text |
| Text.UpperKeepsOccurrence | Meesho_shipping_lable.py:17 | an occurrence of a word survives upper-casing of both, at the same position |
| Text.Join | Meesho_shipping_lable.py:60 | `" ".join` of no parts is empty and of one part is that part |
| Text.OffsetShift | Meesho_shipping_lable.py:60 | the offset of a part grows by the first part's length plus the separator |
| Text.JoinLength | Meesho_shipping_lable.py:60 | the joined text is exactly the parts plus one space between neighbours |
| Text.JoinPart | Meesho_shipping_lable.py:60 | part `k` occurs in the joined text at its offset |
| Text.JoinSeparator | Meesho_shipping_lable.py:60 | a single space follows every part but the last |
| Text.JoinKeepsWords | Meesho_shipping_lable.py:60 | a word found in an upper-cased part is found in the upper-cased joined text |
| Classifier.AnyKeyword | Meesho_shipping_lable.py:19-21 | the inner loop succeeds exactly when some keyword of the category occurs in the text |
| Classifier.FirstHit | Meesho_shipping_lable.py:18-21 | the nested loop stops at the first category with a keyword in the text, and finds none exactly when no category has one |
| Classifier.Classify | Meesho_shipping_lable.py:16-22 | the result is the first hit category's name, the fallback when nothing hits, and never anything other than a category name or the fallback |
| Classifier.ClassifyIgnoresCase | Meesho_shipping_lable.py:17 | classifying upper-cased text gives the same category as the original text |
| Classifier.ClassifyEmptyText | Meesho_shipping_lable.py:60 | an empty page text, such as an empty OCR result, falls back when no keyword is empty |
| Classifier.ClassifyFallbackIff | Meesho_shipping_lable.py:22 | the fallback is returned if and only if no category has a keyword in the upper-cased text |
| Classifier.CoveredNeverFirst | label_sorting_model_base.py:114-116 | a category whose every keyword contains a keyword of an earlier category is never the first hit |
| PriorityTable.Get | label_sorting_model_base.py:140 | `.get` gives the default for an absent key and the value of the key's entry otherwise |
| PriorityTable.FirstKeyExists | label_sorting_model_base.py:140 | a present key has a first entry |
| PriorityTable.GetDistinct | label_sorting_model_base.py:140 | with distinct keys `.get` returns the value written beside the key |
| PriorityTable.DistinctAppend | label_sorting_model_base.py:11-106 | keys stay distinct when two tables with no common key are concatenated |
| Scheme.CategoryPriority | Meesho_shipping_lable.py:66-67 | with well-formed tables every category found has a priority entry, and a page sorts strictly before the fallback exactly when it is not a fallback page |
| Ledger.CountAppend | Meesho_shipping_lable.py:71-72 | appending a tuple raises the count of its category by one and leaves other counts unchanged |
| Ledger.BuildLedger | Meesho_shipping_lable.py:45-74 | the loop builds one tuple per page in page order, with the page's priority, 1-based number, category and page, and `unknown_count` is the number of fallback tuples |
| Ledger.LedgerEntry | Meesho_shipping_lable.py:74 | every tuple of the list describes an existing page and is the tuple built from that page's text |
| PrioritySort.Insert | Meesho_shipping_lable.py:77 | insertion adds exactly one tuple and keeps a sorted list sorted |
| PrioritySort.InsertStep | Meesho_shipping_lable.py:77 | a smaller head stays in front when a tuple is inserted behind it |
| PrioritySort.SortByPriority | Meesho_shipping_lable.py:77 | the sort is a permutation of the list with non-decreasing priorities |
| PrioritySort.WithPriorityMembers | Meesho_shipping_lable.py:77 | the tuples of one priority come from the list and have that priority |
| PrioritySort.InsertWithPriority | Meesho_shipping_lable.py:77 | inserting a tuple puts it first among the tuples of its priority and leaves other priorities untouched |
| PrioritySort.SortStable | Meesho_shipping_lable.py:77 | the sort is stable: the tuples of each priority keep their relative order |
| PrioritySort.SortedUnchanged | Meesho_shipping_lable.py:77 | an already sorted list is left as it is |
| PrioritySort.SortIdempotent | Meesho_shipping_lable.py:77 | sorting twice is sorting once |
| PrioritySort.SortedByFilters | Meesho_shipping_lable.py:77 | two sorted lists with the same tuples of every priority, in the same order, are equal |
| PrioritySort.StableSortUnique | Meesho_shipping_lable.py:77 | any stable sort on priority, Python's `list.sort` included, gives exactly this result |
| PrioritySort.InsertKeyAscending | label_sorting_model_base.py:144 | inserting a tuple with a smaller page number than all others keeps the list ascending on (priority, page number) |
| PrioritySort.SortKeyAscending | label_sorting_model_base.py:144 | when page numbers ascend, the sorted list ascends on (priority, page number) |
| PrioritySort.KeyAscendingHeads | label_sorting_model_base.py:144 | two lists ascending on (priority, page number) with the same tuples start with the same tuple |
| PrioritySort.KeyAscendingUnique | label_sorting_model_base.py:144 | two lists ascending on (priority, page number) with the same tuples are equal |
| PrioritySort.SortIsKeyOrder | label_sorting_model_base.py:144 | the stable sort of a fresh page list is the one permutation ascending on (priority, page number) |
| Pipeline.Pages | label_sorting_model_base.py:146-148 | the pages written are the tuples' pages in list order |
| Pipeline.Range | label_sorting_model_base.py:131 | `range(n)` holds the indices 0 to n-1 in order |
| Pipeline.RangeOnce | label_sorting_model_base.py:131 | every index below n occurs in `range(n)` exactly once and nothing else occurs |
| Pipeline.InsertPages | label_sorting_model_base.py:144 | insertion adds exactly the inserted tuple's page to the written pages |
| Pipeline.SortKeepsPages | label_sorting_model_base.py:144 | sorting neither loses nor duplicates a page |
| Pipeline.InsertCount | Meesho_shipping_lable.py:77 | insertion raises only the count of the inserted tuple's category |
| Pipeline.SortKeepsCount | Meesho_shipping_lable.py:77 | sorting keeps the number of tuples of every category, so `unknown_count` still describes the sorted list |
| Pipeline.PageConservation | label_sorting_model_base.py:131-148 | the pages written are a permutation of all page indices |
| Pipeline.FallbackAfterOthers | Meesho_shipping_lable.py:31 | once a fallback page is written, only fallback pages follow |
| Pipeline.FallbackSuffix | Meesho_shipping_lable.py:71-72 | when fallback tuples only follow each other, they are exactly the last `Count` tuples |
| Pipeline.SortedEntries | Meesho_shipping_lable.py:74-77 | every tuple of the sorted list is the tuple built for its own page |
| Pipeline.OutputIsPermutation | Meesho_shipping_lable.py:80-82 | every page of the input is written exactly once |
| Pipeline.OutputOrder | Meesho_shipping_lable.py:77-82 | written priorities never decrease, and pages of equal priority keep their document order |
| Pipeline.OutputFallbackSuffix | Meesho_shipping_lable.py:71-82 | the fallback pages are exactly the last `unknown_count` pages written |
| Pipeline.SortPages | Meesho_shipping_lable.py:45-82 | a sort run writes every page once, in non-decreasing priority, stable among equal priorities, with the `unknown_count` fallback pages last |
| ModelSorter.GroupAppend | label_sorting_model_base.py:11-106 | brand sections with different tags join into a table whose keys are still distinct |
| ModelSorter.OppoSection | label_sorting_model_base.py:44-66 | the OPPO keys are distinct, start with OPP and have priorities below 999 |
| ModelSorter.RealModelsGroup | label_sorting_model_base.py:13-102 | the 77 real model keys are distinct, each brand-tagged, with priorities below 999 |
| ModelSorter.ModelTableFacts | label_sorting_model_base.py:11-106 | `MODEL_PRIORITY` has distinct keys, ends with "UNKNOWN MODEL" at 999, and every other key differs from it and has a lower priority |
| ModelSorter.KeyCategories | label_sorting_model_base.py:114-115 | each key becomes a category in table order, with "UNKNOWN MODEL" matching nothing |
| ModelSorter.DetectModel | label_sorting_model_base.py:112-117 | `detect_model` always returns a key of `MODEL_PRIORITY` |
| ModelSorter.ModelHit | label_sorting_model_base.py:115 | entry `i` matches exactly when it is not "UNKNOWN MODEL" and its key occurs in the text |
| ModelSorter.ModelSchemeWellFormed | label_sorting_model_base.py:140 | every detected model has a priority entry and "UNKNOWN MODEL" sorts after every real model |
| ModelSorter.DetectModelUnknownIff | label_sorting_model_base.py:114-117 | "UNKNOWN MODEL" is returned if and only if no real model key occurs in the upper-cased text |
| ModelSorter.DetectModelFirstMatch | label_sorting_model_base.py:114-116 | a real model is returned if and only if it occurs in the upper-cased text and no earlier key does |
| ModelSorter.DetectModelIgnoresCase | label_sorting_model_base.py:113 | `detect_model` ignores letter case |
| ModelSorter.ShadowedModelNeverDetected | label_sorting_model_base.py:114-116 | a key containing an earlier key is never returned |
| ModelSorter.OppoA57Shadows | label_sorting_model_base.py:58-60 | "OPPO A57E" and "OPPO A57 5G" are never returned, and a page reading "OPPO A57 5G" gets one of the first 39 models |
| ModelSorter.OtherShadowedModels | label_sorting_model_base.py:63-77 | "OPPO A77S", "REALME 11X 5G", "REALME C30S" and "REALME NARZO 50I PRIME" are never returned |
| ModelSorter.ModelPriorityLookup | label_sorting_model_base.py:140 | the lookup returns the priority written beside a real model, which is below 999, and 999 for "UNKNOWN MODEL", whatever the default |
| ModelSorter.SortShippingLabels | label_sorting_model_base.py:123-148 | every page is written once, priorities never decrease, equal priorities keep document order, and "UNKNOWN MODEL" pages come last |
| CarrierSorter.DetectCarrier | Meesho_shipping_lable.py:16-22 | `detect_carrier` returns one of the four carriers or "UNKNOWN", always a key of `CARRIER_PRIORITY` |
| CarrierSorter.CarrierSchemeWellFormed | Meesho_shipping_lable.py:26-32 | the priority keys are distinct, every carrier has a priority, and "UNKNOWN" sorts last |
| CarrierSorter.CarrierPriorityOrder | Meesho_shipping_lable.py:26-32 | carriers get priorities 1 to 4 in keyword-table order and "UNKNOWN" gets 99, whatever the default |
| CarrierSorter.DetectCarrierUnknownIff | Meesho_shipping_lable.py:16-22 | "UNKNOWN" is returned if and only if no keyword of any carrier occurs in the upper-cased text |
| CarrierSorter.DetectCarrierFirstMatch | Meesho_shipping_lable.py:18-21 | a carrier is returned if and only if it is the first carrier with a keyword in the upper-cased text |
| CarrierSorter.DetectCarrierEmpty | Meesho_shipping_lable.py:60 | a page with no OCR text is "UNKNOWN" |
| CarrierSorter.CarrierKeywordsNonEmpty | Meesho_shipping_lable.py:9-14 | no carrier keyword is empty |
| CarrierSorter.DetectCarrierIgnoresCase | Meesho_shipping_lable.py:17 | `detect_carrier` ignores letter case |
| CarrierSorter.HitByCoreKeyword | Meesho_shipping_lable.py:19-21 | when every variant contains one core keyword, the category matches exactly when that keyword occurs |
| CarrierSorter.CoreKeywords | Meesho_shipping_lable.py:10-13 | VALMO PICKUP matches exactly on "VALMO" and XPRESS BEES exactly on "XPRESS", and a label mentioning "VALMO" is VALMO PICKUP whatever else it reads |
| CarrierSorter.Fragments | Meesho_shipping_lable.py:60 | the fragment texts are taken from the detections one for one, in order |
| CarrierSorter.OcrText | Meesho_shipping_lable.py:60 | no detections give the empty text and a single detection gives its own text |
| CarrierSorter.OcrTextFragment | Meesho_shipping_lable.py:60 | each fragment appears at its offset in the page text, followed by a space unless it is last |
| CarrierSorter.OcrTextLength | Meesho_shipping_lable.py:60 | the page text holds nothing beyond the fragments and the separating spaces |
| CarrierSorter.FragmentKeyword | Meesho_shipping_lable.py:60-66 | a carrier keyword read inside any one fragment makes that carrier match the page, so the page is not "UNKNOWN" |
| CarrierSorter.PageTexts | Meesho_shipping_lable.py:58-63 | each page's text is the one its recognizer produced, in page order |
| CarrierSorter.SortShippingLabels | Meesho_shipping_lable.py:45-82 | every page is written once, priorities never decrease, pages of equal priority keep document order, and the `unknown_count` "UNKNOWN" pages are exactly the last ones |

## Left out

- Text.Upper: only ASCII letters are upper-cased, and the length is kept. Python's `str.upper` also maps non-ASCII letters, and some of them map to ASCII letters and can lengthen the text: `ß` becomes `SS`, `ſ` becomes `S`, `ı` becomes `I`, and the ligature `ﬁ` becomes `FI`. Text containing such letters can therefore be classified differently. For example, the source upper-cases "xpreß" to "XPRESS" and returns "XPRESS BEES", while the model returns "UNKNOWN".
- Text.UpperChar: every character that is not a lower-case ASCII letter is kept unchanged. `str.upper` maps `é` to `É` and `ß` to `SS`, which this function does not model; see the `Text.Upper` line above for the effect on classification.
- Text.Contains: a sequence of characters stands in for a Python `str`. There is no Unicode normalisation.
- PriorityTable.Get: a dict literal is modelled as its sequence of entries, and `.get` returns the first entry with the key. Python keeps the last value of a repeated key. The two agree because every table in the source has distinct keys, which `ModelTableFacts` and `CarrierSchemeWellFormed` prove.
- PrioritySort.SortByPriority: Python's Timsort is modelled as a stable insertion sort. `StableSortUnique` shows that every stable sort on priority gives the same list, so the output order is the same.
- Reading the PDF, rasterising pages (`get_pixmap`, `Image.frombytes`), the text layer (`page.get_text`), and the EasyOCR and pytesseract recognizers are foreign code. Page texts and OCR detections are inputs to the model.
- CarrierSorter.SortShippingLabels: each page carries its own `Scan` kind, so a run may mix recognizers. The source picks one recognizer per run with `use_easyocr`, which is one case of this input.
- Writing the output PDF, the pypdf page objects (a page is its index), and the console output (page count, per-page carrier, summary lines) are I/O and not modelled.
- The tkinter user interface (`open_file`, `run_sorting`, the window and the progress label) and the script run with placeholder file names at the end of `Meesho_shipping_lable.py` are not modelled. They only gather paths and report status.
- Exceptions from file access or OCR are not modelled.
- Pipeline.PageConservation: both scripts take the page count from PyMuPDF (`doc.page_count`) but copy the page objects from pypdf (`pdf_reader.pages[i]`). "Every page is written once" assumes both libraries see the same pages. If pypdf sees more pages, the extra ones are never written. If it sees fewer, `pdf_reader.pages[i]` raises.

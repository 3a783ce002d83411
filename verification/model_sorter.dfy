/**
  label_sorting_model_base.py: shipping labels grouped by the phone model
  named on them. `MODEL_PRIORITY` is at once the keyword table
  and the priority table: `detect_model` looks for each key, in the order
  written, inside the upper-cased page text, skipping "UNKNOWN MODEL"; the
  value of the key found is the page's sort priority.
 */
module ModelSorter {
  import opened Text
  import opened Classifier
  import opened PriorityTable
  import opened Scheme
  import opened Pipeline

  const UnknownModel := "UNKNOWN MODEL"
  const UnknownPriority := 999

  // ---------------------------------------------------------------------------
  // MODEL_PRIORITY, section by section as written
  // ---------------------------------------------------------------------------

  /** The MOTO block of `MODEL_PRIORITY`. */
  const Moto: Table := [
    ("MOTO G67 5G", 1),
    ("MOTO G57 5G", 2),
    ("MOTO G57 POWER 5G", 3),
    ("MOTO G67 POWER 5G", 4),
    ("MOTO EDGE 60 FUSION 5G", 5),
    ("MOTO G31", 6),
    ("MOTO G35 5G", 7),
    ("MOTO G45 5G", 8),
    ("MOTO G54 5G", 9),
    ("MOTO G62 5G", 10),
    ("MOTO E40", 11),
    ("MOTO E30", 12)
  ]

  /** The REDMI block of `MODEL_PRIORITY`. */
  const Redmi: Table := [
    ("REDMI A4 5G", 13),
    ("REDMI A5", 14),
    ("REDMI 9 POWER", 15),
    ("REDMI 12 4G", 16),
    ("REDMI 14C 5G", 17),
    ("REDMI NOTE 6 PRO", 18),
    ("REDMI NOTE 14 5G", 19),
    ("REDMI NOTE 14 PRO 5G", 20)
  ]

  /** The POCO block of `MODEL_PRIORITY`. */
  const Poco: Table := [
    ("POCO F1", 21),
    ("POCO C75 5G", 22),
    ("POCO M7 5G", 23),
    ("POCO M7 PRO 5G", 24)
  ]

  /** The OPPO block of `MODEL_PRIORITY`. */
  const Oppo: Table := [
    ("OPPO F11", 25),
    ("OPPO F31 5G", 26),
    ("OPPO F31 PRO 5G", 27),
    ("OPPO RENO 2Z", 28),
    ("OPPO K10 5G", 29),
    ("OPPO K13X 5G", 30),
    ("OPPO A3S", 31),
    ("OPPO A3 5G", 32),
    ("OPPO A3 PRO 5G", 33),
    ("OPPO A3X 5G", 34),
    ("OPPO A5 5G", 35),
    ("OPPO A5X 5G", 36),
    ("OPPO A17", 37),
    ("OPPO A31", 38),
    ("OPPO A57", 39),
    ("OPPO A57E", 40),
    ("OPPO A57 5G", 41),
    ("OPPO A59 5G", 42),
    ("OPPO A76", 43),
    ("OPPO A77", 44),
    ("OPPO A77S", 45),
    ("OPPO A78 5G", 46),
    ("OPPO A93 4G", 47)
  ]

  /** The REALME block of `MODEL_PRIORITY`. */
  const Realme: Table := [
    ("REALME 11", 48),
    ("REALME 11X 5G", 49),
    ("REALME 14X 5G", 50),
    ("REALME C30", 51),
    ("REALME C30S", 52),
    ("REALME C31", 53),
    ("REALME NARZO 30A", 54),
    ("REALME NARZO 50I", 55),
    ("REALME NARZO 50I PRIME", 56),
    ("REALME NARZO 60X 5G", 57),
    ("REALME NARZO 80 LITE 5G", 58),
    ("REALME NARZO 80X 5G", 59),
    ("REALME NARZO 80 PRO 5G", 60),
    ("REALME P3 5G", 61),
    ("REALME P3X 5G", 62),
    ("REALME GT 7T 5G", 63)
  ]

  /** The SAMSUNG block of `MODEL_PRIORITY`. */
  const Samsung: Table := [
    ("SAMSUNG GALAXY A31", 64),
    ("SAMSUNG F13", 65),
    ("SAMSUNG M13", 66),
    ("SAMSUNG GALAXY J8", 67),
    ("SAMSUNG GALAXY M31S", 68),
    ("SAMSUNG M36 5G", 69),
    ("SAMSUNG GALAXY S20 FE", 70)
  ]

  /** The VIVO block of `MODEL_PRIORITY`. */
  const Vivo: Table := [
    ("VIVO Y16", 71),
    ("VIVO Y19 5G", 72),
    ("VIVO T1 PRO", 73),
    ("VIVO T4X 5G", 74),
    ("VIVO V40 PRO 5G", 75),
    ("VIVO V50E 5G", 76),
    ("VIVO V60E 5G", 77)
  ]

  /** Every real model key, in table order. */
  const RealModels: Table := Moto + Redmi + Poco + Oppo + Realme + Samsung + Vivo

  /** `MODEL_PRIORITY`: the real models, then "UNKNOWN MODEL" at 999. */
  const ModelPriority: Table := RealModels + [(UnknownModel, UnknownPriority)]

  // ---------------------------------------------------------------------------
  // Facts about the table, proved section by section
  // ---------------------------------------------------------------------------

  /** Every key starts with the three-letter brand tag `tag`. */
  predicate Tagged(d: Table, tag: string) {
    forall i :: 0 <= i < |d| ==> |d[i].0| >= 3 && d[i].0[..3] == tag
  }

  /** Every key starts with a three-letter brand tag taken from `tags`. */
  predicate TaggedIn(d: Table, tags: set<string>) {
    forall i :: 0 <= i < |d| ==> |d[i].0| >= 3 && d[i].0[..3] in tags
  }

  /** Every priority is below the fallback's 999. */
  predicate BelowUnknown(d: Table) {
    forall i :: 0 <= i < |d| ==> d[i].1 < UnknownPriority
  }

  /** One brand's run of keys: distinct, all tagged `tag`, below the
      fallback. */
  predicate Section(d: Table, tag: string) {
    DistinctKeys(d) && Tagged(d, tag) && BelowUnknown(d)
  }

  /** Several brands' runs of keys: distinct, tagged from `tags`, below the
      fallback. */
  predicate Group(d: Table, tags: set<string>) {
    DistinctKeys(d) && TaggedIn(d, tags) && BelowUnknown(d)
  }

  /** A section followed by a section of a brand not yet seen is a group. */
  lemma GroupAppend(a: Table, tags: set<string>, b: Table, tag: string)
    requires Group(a, tags) && Section(b, tag) && tag !in tags
    ensures Group(a + b, tags + {tag})
  {
    forall i, j | 0 <= i < |a| && 0 <= j < |b|
      ensures a[i].0 != b[j].0
    {
      assert a[i].0[..3] in tags && b[j].0[..3] == tag;
    }
    DistinctAppend(a, b);
    forall i | 0 <= i < |a + b|
      ensures |(a + b)[i].0| >= 3 && (a + b)[i].0[..3] in tags + {tag}
    {
      if i >= |a| {
        assert (a + b)[i] == b[i - |a|];
      }
    }
  }

  lemma MotoSection() ensures Section(Moto, "MOT") {}
  lemma RedmiSection() ensures Section(Redmi, "RED") {}
  lemma PocoSection() ensures Section(Poco, "POC") {}
  lemma OppoDistinct() ensures DistinctKeys(Oppo) {}
  lemma OppoTagged() ensures Tagged(Oppo, "OPP") {}
  lemma OppoSection() ensures Section(Oppo, "OPP") { OppoDistinct(); OppoTagged(); }
  lemma RealmeSection() ensures Section(Realme, "REA") {}
  lemma SamsungSection() ensures Section(Samsung, "SAM") {}
  lemma VivoSection() ensures Section(Vivo, "VIV") {}

  /** The real models form one group with the seven brand tags. */
  lemma RealModelsGroup()
    ensures Group(RealModels, {"MOT", "RED", "POC", "OPP", "REA", "SAM", "VIV"})
  {
    MotoSection(); RedmiSection(); PocoSection(); OppoSection();
    RealmeSection(); SamsungSection(); VivoSection();
    assert Group(Moto, {"MOT"});
    GroupAppend(Moto, {"MOT"}, Redmi, "RED");
    GroupAppend(Moto + Redmi, {"MOT", "RED"}, Poco, "POC");
    GroupAppend(Moto + Redmi + Poco, {"MOT", "RED", "POC"}, Oppo, "OPP");
    GroupAppend(Moto + Redmi + Poco + Oppo, {"MOT", "RED", "POC", "OPP"}, Realme, "REA");
    GroupAppend(Moto + Redmi + Poco + Oppo + Realme, {"MOT", "RED", "POC", "OPP", "REA"}, Samsung, "SAM");
    GroupAppend(Moto + Redmi + Poco + Oppo + Realme + Samsung, {"MOT", "RED", "POC", "OPP", "REA", "SAM"}, Vivo, "VIV");
  }

  /** `MODEL_PRIORITY` has distinct keys, "UNKNOWN MODEL" is its last key
      and no other key equals it, and every real model's priority is below
      999. */
  lemma ModelTableFacts()
    ensures |ModelPriority| == |RealModels| + 1
    ensures ModelPriority[|RealModels|] == (UnknownModel, UnknownPriority)
    ensures DistinctKeys(ModelPriority)
    ensures forall i :: 0 <= i < |RealModels| ==>
              ModelPriority[i] == RealModels[i] && RealModels[i].0 != UnknownModel && RealModels[i].1 < UnknownPriority
  {
    RealModelsGroup();
    var tags := {"MOT", "RED", "POC", "OPP", "REA", "SAM", "VIV"};
    forall i | 0 <= i < |RealModels|
      ensures RealModels[i].0 != UnknownModel
    {
      assert RealModels[i].0[..3] in tags;
    }
    DistinctAppend(RealModels, [(UnknownModel, UnknownPriority)]);
  }

  // ---------------------------------------------------------------------------
  // detect_model
  // ---------------------------------------------------------------------------

  /** A key as a category: a real model is its own single keyword;
      "UNKNOWN MODEL" gets none, since `detect_model` skips it. */
  function KeyCategory(key: string): Category {
    Category(key, if key == UnknownModel then [] else [key])
  }

  /** The keys of a table as categories, in table order. */
  function KeyCategories(d: Table): (cs: seq<Category>)
    ensures |cs| == |d|
    ensures forall i :: 0 <= i < |d| ==> cs[i] == KeyCategory(d[i].0)
  {
    if d == [] then [] else [KeyCategory(d[0].0)] + KeyCategories(d[1..])
  }

  /** The keys of `MODEL_PRIORITY` as categories: the loop of `detect_model`. */
  const ModelCategories: seq<Category> := KeyCategories(ModelPriority)

  const ModelScheme := Scheme(ModelCategories, UnknownModel, ModelPriority, UnknownPriority)

  /** `detect_model(text)`: always a key of `MODEL_PRIORITY`. */
  function DetectModel(text: string): (model: string)
    ensures HasKey(ModelPriority, model)
  {
    var model := Categorize(ModelScheme, text);
    assert ModelPriority[|ModelPriority| - 1].0 == UnknownModel;
    model
  }

  /** Category `i` is hit exactly when its key is a real model found in the
      text. */
  lemma ModelHit(i: nat, text: string)
    requires i < |ModelPriority|
    ensures Hit(ModelCategories[i], text) <==>
              ModelPriority[i].0 != UnknownModel && Contains(text, ModelPriority[i].0)
  {
  }

  /** The table is well formed: every key has a priority and "UNKNOWN
      MODEL" outranks every real model. */
  lemma ModelSchemeWellFormed()
    ensures WellFormed(ModelScheme)
  {
    ModelTableFacts();
    var d := ModelPriority;
    assert HasKey(d, UnknownModel) by {
      assert d[|RealModels|].0 == UnknownModel;
    }
    forall k | 0 <= k < |ModelCategories|
      ensures HasKey(d, ModelCategories[k].name)
    {
      assert ModelCategories[k].name == d[k].0;
    }
    forall i, j | 0 <= i < |d| && 0 <= j < |d| && d[i].0 == UnknownModel && d[j].0 != UnknownModel
      ensures d[j].1 < d[i].1
    {
      assert i == |RealModels|;
      assert j < |RealModels|;
    }
  }

  /** `detect_model` returns "UNKNOWN MODEL" exactly when no real model key
      occurs in the upper-cased text. */
  lemma DetectModelUnknownIff(text: string)
    ensures DetectModel(text) == UnknownModel <==>
              forall i :: 0 <= i < |RealModels| ==> !Contains(Upper(text), RealModels[i].0)
  {
    ModelTableFacts();
    assert FallbackUnmatchable(ModelCategories, UnknownModel);
    ClassifyFallbackIff(ModelCategories, UnknownModel, text);
    forall i | 0 <= i < |ModelPriority|
      ensures Hit(ModelCategories[i], Upper(text)) <==>
                i < |RealModels| && Contains(Upper(text), RealModels[i].0)
    {
      ModelHit(i, Upper(text));
    }
  }

  /** First match wins: `detect_model` returns a real model exactly when
      that model occurs in the upper-cased text and no earlier model does. */
  lemma DetectModelFirstMatch(text: string, i: nat)
    requires i < |RealModels|
    ensures DetectModel(text) == RealModels[i].0 <==>
              && Contains(Upper(text), RealModels[i].0)
              && forall j :: 0 <= j < i ==> !Contains(Upper(text), RealModels[j].0)
  {
    ModelTableFacts();
    var u := Upper(text);
    forall j | 0 <= j <= i
      ensures Hit(ModelCategories[j], u) <==> Contains(u, RealModels[j].0)
    {
      ModelHit(j, u);
    }
    if Contains(u, RealModels[i].0) && forall j :: 0 <= j < i ==> !Contains(u, RealModels[j].0) {
      assert IsFirstHit(ModelCategories, u, i);
    } else if DetectModel(text) == RealModels[i].0 {
      var r := FirstHit(ModelCategories, u);
      if r.None? {
        assert false;
      }
      ModelHit(r.value, u);
      assert false;
    }
  }

  /** Only the upper-cased text is inspected, so letter case is ignored. */
  lemma DetectModelIgnoresCase(text: string)
    ensures DetectModel(Upper(text)) == DetectModel(text)
  {
    ClassifyIgnoresCase(ModelCategories, UnknownModel, text);
  }

  /** A model whose key contains an earlier model's key is never detected:
      the earlier key is always found first. */
  lemma ShadowedModelNeverDetected(text: string, j: nat, i: nat)
    requires j < i < |RealModels|
    requires Contains(RealModels[i].0, RealModels[j].0)
    ensures DetectModel(text) != RealModels[i].0
  {
    DetectModelFirstMatch(text, i);
    if Contains(Upper(text), RealModels[i].0) {
      ContainsTransitive(Upper(text), RealModels[i].0, RealModels[j].0);
    }
  }

  /** "OPPO A57" (priority 39) is written before "OPPO A57 5G" and "OPPO
      A57E" and is contained in both, so neither is ever detected; a label
      reading "OPPO A57 5G" is classified as one of the first 39 models. */
  lemma OppoA57Shadows(text: string)
    ensures DetectModel(text) != "OPPO A57 5G" && DetectModel(text) != "OPPO A57E"
    ensures Contains(Upper(text), "OPPO A57 5G") ==>
              exists k :: 0 <= k < 39 && DetectModel(text) == RealModels[k].0
  {
    assert RealModels[38].0 == "OPPO A57";
    assert RealModels[39].0 == "OPPO A57E";
    assert RealModels[40].0 == "OPPO A57 5G";
    assert OccursAt("OPPO A57", "OPPO A57 5G", 0);
    assert OccursAt("OPPO A57", "OPPO A57E", 0);
    ShadowedModelNeverDetected(text, 38, 40);
    ShadowedModelNeverDetected(text, 38, 39);
    if Contains(Upper(text), "OPPO A57 5G") {
      ContainsTransitive(Upper(text), "OPPO A57 5G", "OPPO A57");
      ModelTableFacts();
      var r := FirstHit(ModelCategories, Upper(text));
      ModelHit(38, Upper(text));
      var k := r.value;
      ModelHit(k, Upper(text));
      assert k <= 38;
      assert DetectModel(text) == RealModels[k].0;
    }
  }

  /** The other shadowed keys of the table: "OPPO A77S" behind "OPPO A77",
      "REALME 11X 5G" behind "REALME 11", "REALME C30S" behind "REALME C30"
      and "REALME NARZO 50I PRIME" behind "REALME NARZO 50I". */
  lemma OtherShadowedModels(text: string)
    ensures DetectModel(text) != "OPPO A77S"
    ensures DetectModel(text) != "REALME 11X 5G"
    ensures DetectModel(text) != "REALME C30S"
    ensures DetectModel(text) != "REALME NARZO 50I PRIME"
  {
    assert RealModels[43].0 == "OPPO A77" && RealModels[44].0 == "OPPO A77S";
    assert RealModels[47].0 == "REALME 11" && RealModels[48].0 == "REALME 11X 5G";
    assert RealModels[50].0 == "REALME C30" && RealModels[51].0 == "REALME C30S";
    assert RealModels[54].0 == "REALME NARZO 50I" && RealModels[55].0 == "REALME NARZO 50I PRIME";
    assert OccursAt("OPPO A77", "OPPO A77S", 0);
    assert OccursAt("REALME 11", "REALME 11X 5G", 0);
    assert OccursAt("REALME C30", "REALME C30S", 0);
    assert OccursAt("REALME NARZO 50I", "REALME NARZO 50I PRIME", 0);
    ShadowedModelNeverDetected(text, 43, 44);
    ShadowedModelNeverDetected(text, 47, 48);
    ShadowedModelNeverDetected(text, 50, 51);
    ShadowedModelNeverDetected(text, 54, 55);
  }

  // ---------------------------------------------------------------------------
  // Priorities and the sort
  // ---------------------------------------------------------------------------

  /** `MODEL_PRIORITY.get(key, default)` is the value written beside the key
      whatever the default, and "UNKNOWN MODEL" at 999 is above every real
      model's priority. */
  lemma ModelPriorityLookup(i: nat, default: int)
    requires i < |RealModels|
    ensures Get(ModelPriority, RealModels[i].0, default) == RealModels[i].1
    ensures Get(ModelPriority, UnknownModel, default) == UnknownPriority
    ensures RealModels[i].1 < UnknownPriority
  {
    ModelTableFacts();
    GetDistinct(ModelPriority, i, default);
    GetDistinct(ModelPriority, |RealModels|, default);
  }

  /** The priority a page gets: `MODEL_PRIORITY.get(detect_model(text), 999)`. */
  function ModelPagePriority(text: string): int {
    PriorityOf(ModelScheme, DetectModel(text))
  }

  /** The model part of `sort_shipping_labels`, given the extracted text of
      each page: the order in which pages are written to the output. Each
      page is written once; priorities never decrease; pages of the same
      priority keep their document order; "UNKNOWN MODEL" pages come after
      every page with a real model. */
  method SortShippingLabels(pageTexts: seq<string>) returns (order: seq<nat>)
    ensures |order| == |pageTexts|
    ensures forall k :: 0 <= k < |order| ==> order[k] < |pageTexts|
    ensures forall p :: 0 <= p < |pageTexts| ==> multiset(order)[p] == 1
    ensures forall a, b :: 0 <= a < b < |order| ==>
              ModelPagePriority(pageTexts[order[a]]) <= ModelPagePriority(pageTexts[order[b]])
    ensures forall a, b ::
              (0 <= a < b < |order| && ModelPagePriority(pageTexts[order[a]]) == ModelPagePriority(pageTexts[order[b]])) ==>
              order[a] < order[b]
    ensures forall a, b ::
              (0 <= a < b < |order| && DetectModel(pageTexts[order[a]]) == UnknownModel) ==>
              DetectModel(pageTexts[order[b]]) == UnknownModel
  {
    ModelSchemeWellFormed();
    var unknownCount;
    order, unknownCount := SortPages(ModelScheme, pageTexts);
  }
}

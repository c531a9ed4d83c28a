/**
 * `RobBERTRecognizer` of src/core/recognizers/robbert.py: RobBERT's NER pipeline and spaCy's
 * `nl_core_news_md`, built once while the base class is constructed (then dropped) and again
 * on first use; their entities are mapped to canonical types,
 * filtered by the requested entities and returned RobBERT first, then spaCy. The two
 * models are functions from text to their raw entities, handed to `Load`.
 */
module CoreRobbert {
  import opened Wrappers
  import opened RecognizerResults

  /** One aggregated entity of the transformers NER pipeline. */
  datatype NerEntity = NerEntity(entityGroup: string, start: int, end: int, score: int)

  /** One entity of a spaCy `Doc`. */
  datatype SpacyEntity = SpacyEntity(spacyLabel: string, startChar: int, endChar: int)

  type NerPipeline = string -> seq<NerEntity>
  type SpacyModel = string -> seq<SpacyEntity>

  /** spaCy gives no score; its results get 0.85. */
  const SpacyScore: int := 85

  const DefaultSupportedEntities: seq<string> :=
    ["PERSON", "LOCATION", "ORGANIZATION", "PHONE_NUMBER", "EMAIL", "IBAN", "ADDRESS"]

  /** `_convert_robbert_label`: PER, LOC, ORG and MISC are known; MISC counts as an organization. */
  function ConvertRobbertLabel(robbertLabel: string): (t: Option<string>)
    ensures t == Some("PERSON") <==> robbertLabel == "PER"
    ensures t == Some("LOCATION") <==> robbertLabel == "LOC"
    ensures t == Some("ORGANIZATION") <==> robbertLabel == "ORG" || robbertLabel == "MISC"
    ensures t.None? <==> robbertLabel !in {"PER", "LOC", "ORG", "MISC"}
  {
    var labelMapping := map["PER" := "PERSON", "LOC" := "LOCATION", "ORG" := "ORGANIZATION", "MISC" := "ORGANIZATION"];
    if robbertLabel in labelMapping then Some(labelMapping[robbertLabel]) else None
  }

  /**
   * `_convert_spacy_label`: six labels map to a type; the other listed labels map to None, as
   * does every label the table does not list.
   */
  function ConvertSpacyLabel(spacyLabel: string): (t: Option<string>)
    ensures t == Some("PERSON") <==> spacyLabel == "PERSON"
    ensures t == Some("LOCATION") <==> spacyLabel in {"LOC", "GPE", "FAC"}
    ensures t == Some("ORGANIZATION") <==> spacyLabel in {"ORG", "PRODUCT"}
    ensures t.None? <==> spacyLabel !in {"PERSON", "LOC", "GPE", "ORG", "FAC", "PRODUCT"}
  {
    var labelMapping := map[
      "PERSON" := Some("PERSON"), "LOC" := Some("LOCATION"), "GPE" := Some("LOCATION"),
      "ORG" := Some("ORGANIZATION"), "FAC" := Some("LOCATION"), "PRODUCT" := Some("ORGANIZATION"),
      "EVENT" := None, "WORK_OF_ART" := None, "LAW" := None, "LANGUAGE" := None, "DATE" := None,
      "TIME" := None, "PERCENT" := None, "MONEY" := None, "QUANTITY" := None, "ORDINAL" := None,
      "CARDINAL" := None];
    if spacyLabel in labelMapping then labelMapping[spacyLabel] else None
  }

  /** Both mappings land in the default supported entities. */
  lemma MappedTypesSupported(l: string)
    ensures ConvertRobbertLabel(l).Some? ==> ConvertRobbertLabel(l).value in DefaultSupportedEntities
    ensures ConvertSpacyLabel(l).Some? ==> ConvertSpacyLabel(l).value in DefaultSupportedEntities
  {
  }

  /** `not entities`: None and the empty list both request everything. */
  predicate NoFilter(entities: Option<seq<string>>)
  {
    entities.None? || entities.value == []
  }

  /** `entity_type and (not entities or entity_type in entities)`. */
  predicate Wanted(t: Option<string>, entities: Option<seq<string>>)
  {
    t.Some? && t.value != "" && (NoFilter(entities) || t.value in entities.value)
  }

  /** The results of the RobBERT loop over `ents`: mapped, filtered, with the model's offsets and score. */
  function RobbertResults(ents: seq<NerEntity>, entities: Option<seq<string>>): seq<RecognizerResult>
    decreases |ents|
  {
    if ents == [] then []
    else
      var e := ents[|ents| - 1];
      var t := ConvertRobbertLabel(e.entityGroup);
      RobbertResults(ents[..|ents| - 1], entities)
      + (if Wanted(t, entities) then [RecognizerResult(t.value, e.start, e.end, e.score)] else [])
  }

  /** The results of the spaCy loop over `ents`: mapped, filtered, with char offsets and score 0.85. */
  function SpacyResults(ents: seq<SpacyEntity>, entities: Option<seq<string>>): seq<RecognizerResult>
    decreases |ents|
  {
    if ents == [] then []
    else
      var e := ents[|ents| - 1];
      var t := ConvertSpacyLabel(e.spacyLabel);
      SpacyResults(ents[..|ents| - 1], entities)
      + (if Wanted(t, entities) then [RecognizerResult(t.value, e.startChar, e.endChar, SpacyScore)] else [])
  }

  /** A RobBERT result is exactly a wanted model entity, with the model's start, end and score. */
  lemma {:induction false} RobbertResultsMembers(ents: seq<NerEntity>, entities: Option<seq<string>>, x: RecognizerResult)
    ensures x in RobbertResults(ents, entities) <==>
              exists e :: e in ents && Wanted(ConvertRobbertLabel(e.entityGroup), entities)
                          && x == RecognizerResult(ConvertRobbertLabel(e.entityGroup).value, e.start, e.end, e.score)
    decreases |ents|
  {
    if ents != [] {
      var init := ents[..|ents| - 1];
      var e := ents[|ents| - 1];
      RobbertResultsMembers(init, entities, x);
      assert ents == init + [e];
      assert forall f :: f in ents <==> f in init || f == e;
    }
  }

  /** A spaCy result is exactly a wanted spaCy entity, with its char offsets and score 0.85. */
  lemma {:induction false} SpacyResultsMembers(ents: seq<SpacyEntity>, entities: Option<seq<string>>, x: RecognizerResult)
    ensures x in SpacyResults(ents, entities) <==>
              exists e :: e in ents && Wanted(ConvertSpacyLabel(e.spacyLabel), entities)
                          && x == RecognizerResult(ConvertSpacyLabel(e.spacyLabel).value, e.startChar, e.endChar, SpacyScore)
    decreases |ents|
  {
    if ents != [] {
      var init := ents[..|ents| - 1];
      var e := ents[|ents| - 1];
      SpacyResultsMembers(init, entities, x);
      assert ents == init + [e];
      assert forall f :: f in ents <==> f in init || f == e;
    }
  }

  /** With a non-empty request every result has a requested type. */
  lemma {:induction false} ResultsRequested(robbert: seq<NerEntity>, spacy: seq<SpacyEntity>, entities: seq<string>)
    requires entities != []
    ensures forall x :: x in RobbertResults(robbert, Some(entities)) + SpacyResults(spacy, Some(entities)) ==> x.entityType in entities
  {
    forall x | x in RobbertResults(robbert, Some(entities)) + SpacyResults(spacy, Some(entities))
      ensures x.entityType in entities
    {
      RobbertResultsMembers(robbert, Some(entities), x);
      SpacyResultsMembers(spacy, Some(entities), x);
    }
  }

  class RobbertRecognizer {
    var supportedEntities: seq<string>
    var supportedLanguage: string
    var isLoaded: bool
    var model: Option<NerPipeline>
    var nlp: Option<SpacyModel>
    /** How many times the models have been built, counting the build during construction. */
    ghost var loadCount: nat

    /**
     * Loaded exactly when both models are present. The models built while the base class is
     * constructed are discarded, so a loaded recognizer has built them twice.
     */
    ghost predicate Valid()
      reads this
    {
      (isLoaded <==> model.Some? && nlp.Some?)
      && loadCount == (if isLoaded then 2 else 1)
    }

    /**
     * `EntityRecognizer.__init__` sets `is_loaded` to False, calls `self.load()` (this class's
     * `load`, which builds both models) and sets `is_loaded` to True; the lines after
     * `super().__init__` then reset `is_loaded`, `model` and `nlp`. The models `load` builds are
     * the parameters `loadPipeline` and `loadSpacy`.
     */
    constructor (supportedEntities: Option<seq<string>>, supportedLanguage: string,
                 loadPipeline: NerPipeline, loadSpacy: SpacyModel)
      ensures Valid()
      ensures this.supportedEntities == (if supportedEntities.None? then DefaultSupportedEntities else supportedEntities.value)
      ensures this.supportedLanguage == supportedLanguage
      ensures !isLoaded && model.None? && nlp.None?
      ensures loadCount == 1
    {
      this.supportedEntities := if supportedEntities.None? then DefaultSupportedEntities else supportedEntities.value;
      this.supportedLanguage := supportedLanguage;
      // the base-class constructor: load() runs with is_loaded False
      isLoaded := false;
      model := Some(loadPipeline);
      nlp := Some(loadSpacy);
      loadCount := 1;
      isLoaded := true;
      // "Disable auto-loading": the models just built are dropped
      isLoaded := false;
      model := None;
      nlp := None;
    }

    /** `load`: the first call loads both models; later calls change nothing. */
    method Load(loadPipeline: NerPipeline, loadSpacy: SpacyModel)
      modifies this
      requires Valid()
      ensures Valid()
      ensures isLoaded
      ensures old(isLoaded) ==> unchanged(this)
      ensures !old(isLoaded) ==> model == Some(loadPipeline) && nlp == Some(loadSpacy)
                                 && supportedEntities == old(supportedEntities)
                                 && supportedLanguage == old(supportedLanguage)
                                 && loadCount == old(loadCount) + 1
    {
      if !isLoaded {
        model := Some(loadPipeline);
        nlp := Some(loadSpacy);
        isLoaded := true;
        loadCount := loadCount + 1;
      }
    }

    /**
     * `analyze`: empty text gives no results and loads nothing; otherwise the models are loaded
     * if need be, and the RobBERT results come first, then the spaCy ones, each in model order.
     */
    method Analyze(text: string, entities: Option<seq<string>>, loadPipeline: NerPipeline, loadSpacy: SpacyModel)
      returns (results: seq<RecognizerResult>)
      modifies this
      requires Valid()
      ensures Valid()
      ensures text == "" ==> results == [] && unchanged(this)
      ensures old(isLoaded) ==> unchanged(this)
      ensures text != "" ==> isLoaded
      ensures text != "" && !old(isLoaded) ==> model == Some(loadPipeline) && nlp == Some(loadSpacy)
      ensures supportedEntities == old(supportedEntities) && supportedLanguage == old(supportedLanguage)
      ensures text != "" ==> results == RobbertResults(model.value(text), entities) + SpacyResults(nlp.value(text), entities)
    {
      if text == "" {
        return [];
      }
      if !isLoaded {
        Load(loadPipeline, loadSpacy);
      }
      results := [];
      var robbertResults := model.value(text);
      for i := 0 to |robbertResults|
        invariant results == RobbertResults(robbertResults[..i], entities)
      {
        var ent := robbertResults[i];
        assert robbertResults[..i + 1][..i] == robbertResults[..i];
        var entityType := ConvertRobbertLabel(ent.entityGroup);
        if Wanted(entityType, entities) {
          results := results + [RecognizerResult(entityType.value, ent.start, ent.end, ent.score)];
        }
      }
      assert robbertResults[..|robbertResults|] == robbertResults;
      var doc := nlp.value(text);
      for j := 0 to |doc|
        invariant results == RobbertResults(robbertResults, entities) + SpacyResults(doc[..j], entities)
      {
        var ent := doc[j];
        assert doc[..j + 1][..j] == doc[..j];
        var entityType := ConvertSpacyLabel(ent.spacyLabel);
        if Wanted(entityType, entities) {
          results := results + [RecognizerResult(entityType.value, ent.startChar, ent.endChar, SpacyScore)];
        }
      }
      assert doc[..|doc|] == doc;
    }
  }
}

/**
 * `RobBERTRecognizer` of src/analyzer/recognizers/robbert.py: only the RobBERT pipeline, built
 * once while the base class is constructed (then dropped) and again on first use. Its labels map to canonical types with MISC dropped to None, and the entity
 * filter only skips results when a non-empty request is given, so without one even None-typed
 * results are returned.
 */
module AnalyzerRobbert {
  import opened Wrappers
  import CoreRobbert

  type NerEntity = CoreRobbert.NerEntity
  type NerPipeline = CoreRobbert.NerPipeline

  /** A `RecognizerResult` whose `entity_type` may be None. */
  datatype NerResult = NerResult(entityType: Option<string>, start: int, end: int, score: int)

  const DefaultSupportedEntities: seq<string> := ["PERSON", "LOCATION", "ORGANIZATION"]

  /** `_convert_label`: PER, LOC and ORG map to a type; MISC and every other label map to None. */
  function ConvertLabel(robbertLabel: string): (t: Option<string>)
    ensures t == Some("PERSON") <==> robbertLabel == "PER"
    ensures t == Some("LOCATION") <==> robbertLabel == "LOC"
    ensures t == Some("ORGANIZATION") <==> robbertLabel == "ORG"
    ensures t.None? <==> robbertLabel !in {"PER", "LOC", "ORG"}
  {
    var labelMapping := map["PER" := Some("PERSON"), "LOC" := Some("LOCATION"), "ORG" := Some("ORGANIZATION"),
                            "MISC" := None];
    if robbertLabel in labelMapping then labelMapping[robbertLabel] else None
  }

  /** The negation of `entities and entity_type not in entities`. */
  predicate Emitted(t: Option<string>, entities: Option<seq<string>>)
  {
    CoreRobbert.NoFilter(entities) || (t.Some? && t.value in entities.value)
  }

  /** The result a model entity becomes: its mapped type, with the model's start, end and score. */
  function ToResult(e: NerEntity): NerResult
  {
    NerResult(ConvertLabel(e.entityGroup), e.start, e.end, e.score)
  }

  /** The results of the loop over `ents`. */
  function NerResults(ents: seq<NerEntity>, entities: Option<seq<string>>): seq<NerResult>
    decreases |ents|
  {
    if ents == [] then []
    else
      var e := ents[|ents| - 1];
      NerResults(ents[..|ents| - 1], entities)
      + (if Emitted(ConvertLabel(e.entityGroup), entities) then [ToResult(e)] else [])
  }

  /** With a non-empty request every result has a type, and it is a requested one. */
  lemma {:induction false} FilteredTypesRequested(ents: seq<NerEntity>, entities: seq<string>)
    requires entities != []
    ensures forall x :: x in NerResults(ents, Some(entities)) ==> x.entityType.Some? && x.entityType.value in entities
    decreases |ents|
  {
    if ents != [] {
      FilteredTypesRequested(ents[..|ents| - 1], entities);
    }
  }

  /** With a non-empty request, a result is exactly an entity whose mapped type is requested. */
  lemma {:induction false} FilteredMembers(ents: seq<NerEntity>, entities: seq<string>, x: NerResult)
    requires entities != []
    ensures x in NerResults(ents, Some(entities)) <==>
              exists e :: e in ents && x == ToResult(e) && x.entityType.Some? && x.entityType.value in entities
    decreases |ents|
  {
    if ents != [] {
      var init := ents[..|ents| - 1];
      var e := ents[|ents| - 1];
      FilteredMembers(init, entities, x);
      assert ents == init + [e];
      assert forall f :: f in ents <==> f in init || f == e;
    }
  }

  /** Without a request every model entity comes back, in model order, None-typed ones included. */
  lemma {:induction false} UnfilteredMirrors(ents: seq<NerEntity>, entities: Option<seq<string>>)
    requires CoreRobbert.NoFilter(entities)
    ensures |NerResults(ents, entities)| == |ents|
    ensures forall k :: 0 <= k < |ents| ==> NerResults(ents, entities)[k] == ToResult(ents[k])
    decreases |ents|
  {
    if ents != [] {
      UnfilteredMirrors(ents[..|ents| - 1], entities);
    }
  }

  class RobbertRecognizer {
    var supportedEntities: seq<string>
    var supportedLanguage: string
    var isLoaded: bool
    var model: Option<NerPipeline>
    /** How many times the model has been built, counting the build during construction. */
    ghost var loadCount: nat

    /**
     * Loaded exactly when the model is present. The model built while the base class is
     * constructed is discarded, so a loaded recognizer has built it twice.
     */
    ghost predicate Valid()
      reads this
    {
      (isLoaded <==> model.Some?)
      && loadCount == (if isLoaded then 2 else 1)
    }

    /**
     * `EntityRecognizer.__init__` sets `is_loaded` to False, calls `self.load()` (this class's
     * `load`, which builds the pipeline) and sets `is_loaded` to True; the lines after
     * `super().__init__` then reset `is_loaded` and `model`. The pipeline `load` builds is the
     * parameter `loadPipeline`.
     */
    constructor (supportedEntities: Option<seq<string>>, supportedLanguage: string, loadPipeline: NerPipeline)
      ensures Valid()
      ensures this.supportedEntities == (if supportedEntities.None? then DefaultSupportedEntities else supportedEntities.value)
      ensures this.supportedLanguage == supportedLanguage
      ensures !isLoaded && model.None?
      ensures loadCount == 1
    {
      this.supportedEntities := if supportedEntities.None? then DefaultSupportedEntities else supportedEntities.value;
      this.supportedLanguage := supportedLanguage;
      // the base-class constructor: load() runs with is_loaded False
      isLoaded := false;
      model := Some(loadPipeline);
      loadCount := 1;
      isLoaded := true;
      // "Disable auto-loading": the model just built is dropped
      isLoaded := false;
      model := None;
    }

    /** `load`: guarded by `is_loaded`, so after construction it builds the model at most once more. */
    method Load(loadPipeline: NerPipeline)
      modifies this
      requires Valid()
      ensures Valid()
      ensures isLoaded
      ensures old(isLoaded) ==> unchanged(this)
      ensures !old(isLoaded) ==> model == Some(loadPipeline)
                                 && supportedEntities == old(supportedEntities)
                                 && supportedLanguage == old(supportedLanguage)
                                 && loadCount == old(loadCount) + 1
    {
      if !isLoaded {
        model := Some(loadPipeline);
        isLoaded := true;
        loadCount := loadCount + 1;
      }
    }

    /** `analyze`: empty text gives no results; otherwise the model is loaded if need be and its entities are filtered. */
    method Analyze(text: string, entities: Option<seq<string>>, loadPipeline: NerPipeline)
      returns (results: seq<NerResult>)
      modifies this
      requires Valid()
      ensures Valid()
      ensures text == "" ==> results == [] && unchanged(this)
      ensures old(isLoaded) ==> unchanged(this)
      ensures text != "" ==> isLoaded
      ensures text != "" && !old(isLoaded) ==> model == Some(loadPipeline)
      ensures supportedEntities == old(supportedEntities) && supportedLanguage == old(supportedLanguage)
      ensures text != "" ==> results == NerResults(model.value(text), entities)
    {
      if text == "" {
        return [];
      }
      if !isLoaded {
        Load(loadPipeline);
      }
      var nerResults := model.value(text);
      results := [];
      var i := 0;
      while i < |nerResults|
        invariant 0 <= i <= |nerResults|
        invariant results == NerResults(nerResults[..i], entities)
      {
        var ent := nerResults[i];
        i := i + 1;
        assert nerResults[..i][..i - 1] == nerResults[..i - 1];
        var entityType := ConvertLabel(ent.entityGroup);
        if entities.Some? && entities.value != [] && (entityType.None? || entityType.value !in entities.value) {
          continue;
        }
        results := results + [NerResult(entityType, ent.start, ent.end, ent.score)];
      }
      assert nerResults[..i] == nerResults;
    }
  }
}

/**
 * `DutchTextAnonymizer.anonymize_text` of src/core/anonymizer.py: choose the operator table, sort
 * the results by (score, length of the type name) descending, drop low-confidence results,
 * greedily drop overlapping ones and hand the rest to Presidio's replace.
 */
module CoreAnonymizer {
  import opened Wrappers
  import opened TextUtil
  import opened RecognizerResults
  import opened PresidioReplace

  /** The built-in replacement table, one token per canonical entity type. */
  const DefaultOperators: map<string, OperatorConfig> := map[
    "PERSON" := ReplaceOperator("[PERSOON]"),
    "LOCATION" := ReplaceOperator("[LOCATIE]"),
    "PHONE_NUMBER" := ReplaceOperator("[TELEFOONNUMMER]"),
    "EMAIL" := ReplaceOperator("[EMAIL]"),
    "ORGANIZATION" := ReplaceOperator("[ORGANISATIE]"),
    "IBAN" := ReplaceOperator("[IBAN]"),
    "ADDRESS" := ReplaceOperator("[ADRES]")
  ]

  /** Results scoring below 0.40 are never anonymized. */
  const MinScore: int := 40

  /** The default table has exactly seven entries, each a bracketed Dutch token. */
  lemma DefaultOperatorsShape()
    ensures DefaultOperators.Keys == {"PERSON", "LOCATION", "PHONE_NUMBER", "EMAIL", "ORGANIZATION", "IBAN", "ADDRESS"}
    ensures |DefaultOperators.Keys| == 7
    ensures Token(DefaultOperators, "PERSON") == "[PERSOON]"
    ensures Token(DefaultOperators, "LOCATION") == "[LOCATIE]"
    ensures Token(DefaultOperators, "PHONE_NUMBER") == "[TELEFOONNUMMER]"
    ensures Token(DefaultOperators, "EMAIL") == "[EMAIL]"
    ensures Token(DefaultOperators, "ORGANIZATION") == "[ORGANISATIE]"
    ensures Token(DefaultOperators, "IBAN") == "[IBAN]"
    ensures Token(DefaultOperators, "ADDRESS") == "[ADRES]"
    ensures forall t :: t in DefaultOperators ==>
              |DefaultOperators[t].newValue| > 2
              && DefaultOperators[t].newValue[0] == '['
              && DefaultOperators[t].newValue[|DefaultOperators[t].newValue| - 1] == ']'
  {
    assert DefaultOperators.Keys == {"PERSON", "LOCATION", "PHONE_NUMBER", "EMAIL", "ORGANIZATION", "IBAN", "ADDRESS"};
  }

  /** `operators or self.default_operators`: both None and an empty dict select the defaults. */
  function EffectiveOperators(operators: Option<map<string, OperatorConfig>>): (ops: map<string, OperatorConfig>)
    ensures ops != map[]
    ensures operators.Some? && operators.value != map[] ==> ops == operators.value
  {
    if operators.Some? && operators.value != map[] then operators.value
    else
      assert "PERSON" in DefaultOperators;
      DefaultOperators
  }

  /** The sort key `(score, len(entity_type))`, sorted with `reverse=True`. */
  function AnonymizerKey(r: RecognizerResult): Key
  {
    Key(r.score, |r.entityType|)
  }

  /** The results the loop keeps after running over `cands` (already in priority order). */
  function SelectSpans(cands: seq<RecognizerResult>): (selected: seq<RecognizerResult>)
    decreases |cands|
  {
    if cands == [] then []
    else
      var kept := SelectSpans(cands[..|cands| - 1]);
      var r := cands[|cands| - 1];
      if r.score >= MinScore && !OverlapsKept(r, kept) then kept + [r] else kept
  }

  lemma {:induction false} SelectDisjoint(cands: seq<RecognizerResult>)
    ensures PairwiseDisjoint(SelectSpans(cands))
    decreases |cands|
  {
    if cands != [] {
      var kept := SelectSpans(cands[..|cands| - 1]);
      SelectDisjoint(cands[..|cands| - 1]);
      var r := cands[|cands| - 1];
      if r.score >= MinScore && !OverlapsKept(r, kept) {
        var out := kept + [r];
        forall i, j | 0 <= i < j < |out| ensures !OverlapsResult(out[i], out[j]) {
          if j == |kept| {
            assert out[i] == kept[i] && out[j] == r;
            assert !OverlapsResult(r, kept[i]);
          } else {
            assert out[i] == kept[i] && out[j] == kept[j];
          }
        }
      }
    }
  }

  /** No result below the threshold reaches the engine. */
  lemma {:induction false} SelectScores(cands: seq<RecognizerResult>)
    ensures forall x :: x in SelectSpans(cands) ==> x.score >= MinScore
    decreases |cands|
  {
    if cands != [] {
      SelectScores(cands[..|cands| - 1]);
    }
  }

  /** The kept results are a subsequence of the sorted input, results unchanged. */
  lemma {:induction false} SelectSubseq(cands: seq<RecognizerResult>)
    ensures IsSubseq(SelectSpans(cands), cands)
    decreases |cands|
  {
    if cands != [] {
      var p := cands[..|cands| - 1];
      SelectSubseq(p);
      var kept := SelectSpans(p);
      var r := cands[|cands| - 1];
      if r.score >= MinScore && !OverlapsKept(r, kept) {
        var a := kept + [r];
        assert a[..|a| - 1] == kept;
      }
    }
  }

  lemma {:induction false} SelectMembers(cands: seq<RecognizerResult>)
    ensures forall x :: x in SelectSpans(cands) ==> x in cands
    decreases |cands|
  {
    if cands != [] {
      var p := cands[..|cands| - 1];
      SelectMembers(p);
      assert forall x :: x in p ==> x in cands;
    }
  }

  /** What the loop has kept after `i` candidates is never taken back. */
  lemma {:induction false} SelectPrefix(cands: seq<RecognizerResult>, i: nat)
    requires i <= |cands|
    ensures SelectSpans(cands[..i]) <= SelectSpans(cands)
    decreases |cands|
  {
    if i < |cands| {
      var p := cands[..|cands| - 1];
      assert p[..i] == cands[..i];
      SelectPrefix(p, i);
    } else {
      assert cands[..i] == cands;
    }
  }

  /**
   * A result scoring at least 0.40 is dropped only when it overlaps a result kept before it;
   * a low-scoring one reserves no range.
   */
  lemma SelectMaximal(cands: seq<RecognizerResult>, i: nat)
    requires i < |cands|
    ensures cands[i].score >= MinScore && !OverlapsKept(cands[i], SelectSpans(cands[..i]))
            ==> cands[i] in SelectSpans(cands)
    ensures cands[i].score < MinScore ==> SelectSpans(cands[..i + 1]) == SelectSpans(cands[..i])
  {
    var q := cands[..i + 1];
    assert q[..|q| - 1] == cands[..i];
    assert q[|q| - 1] == cands[i];
    SelectPrefix(cands, i + 1);
  }

  /**
   * `anonymize_text`. The caller's list is a value here, so `sorted` leaving it untouched holds
   * by construction; the engine call is Presidio's replace.
   */
  method AnonymizeText(text: string, analyzerResults: seq<RecognizerResult>,
                       operators: Option<map<string, OperatorConfig>>)
    returns (anonymized: string)
    ensures anonymized == Replace(text, SelectSpans(SortDesc(analyzerResults, AnonymizerKey)), EffectiveOperators(operators))
  {
    var ops := EffectiveOperators(operators);
    var sortedResults := SortDesc(analyzerResults, AnonymizerKey);
    var filteredResults: seq<RecognizerResult> := [];
    var usedRanges: seq<(int, int)> := [];
    var i := 0;
    while i < |sortedResults|
      invariant 0 <= i <= |sortedResults|
      invariant filteredResults == SelectSpans(sortedResults[..i])
      invariant usedRanges == RangesOf(filteredResults)
    {
      var result := sortedResults[i];
      i := i + 1;
      assert sortedResults[..i][..i - 1] == sortedResults[..i - 1];
      assert sortedResults[..i][i - 1] == result;
      if result.score < MinScore {
        continue;
      }
      var overlaps := OverlapsAny(usedRanges, result.start, result.end);
      RangesOverlap(result, filteredResults);
      if !overlaps {
        filteredResults := filteredResults + [result];
        usedRanges := usedRanges + [(result.start, result.end)];
      }
    }
    assert sortedResults[..i] == sortedResults;
    anonymized := Replace(text, filteredResults, ops);
  }

  /**
   * Overlapping PERSON [0,12) 0.85 and ORGANIZATION [0,17) 0.70 with LOCATION [21,30) 0.90 over
   * "Jan de Vries Bank in Amsterdam": sorted LOCATION, PERSON, ORGANIZATION; ORGANIZATION is
   * dropped for overlapping PERSON, and the text becomes "[PERSOON] Bank in [LOCATIE]".
   */
  lemma OverlapScenario(person: RecognizerResult, org: RecognizerResult, loc: RecognizerResult)
    requires person == RecognizerResult("PERSON", 0, 12, 85)
    requires org == RecognizerResult("ORGANIZATION", 0, 17, 70)
    requires loc == RecognizerResult("LOCATION", 21, 30, 90)
    ensures SortDesc([person, org, loc], AnonymizerKey) == [loc, person, org]
    ensures SelectSpans([loc, person, org]) == [loc, person]
    ensures Replace("Jan de Vries Bank in Amsterdam", [loc, person], DefaultOperators) == "[PERSOON] Bank in [LOCATIE]"
  {
    OverlapScenarioSort(person, org, loc);
    OverlapScenarioSelect(person, org, loc);
    OverlapScenarioReplace(person, loc);
  }

  lemma OverlapScenarioSort(person: RecognizerResult, org: RecognizerResult, loc: RecognizerResult)
    requires person == RecognizerResult("PERSON", 0, 12, 85)
    requires org == RecognizerResult("ORGANIZATION", 0, 17, 70)
    requires loc == RecognizerResult("LOCATION", 21, 30, 90)
    ensures SortDesc([person, org, loc], AnonymizerKey) == [loc, person, org]
  {
    assert [person, org, loc][1..] == [org, loc];
    assert [org, loc][1..] == [loc];
    assert SortDesc([loc], AnonymizerKey) == [loc];
    assert SortDesc([org, loc], AnonymizerKey) == [loc, org];
    assert [loc, org][1..] == [org];
    assert InsertDesc(person, [org], AnonymizerKey) == [person, org];
    assert InsertDesc(person, [loc, org], AnonymizerKey) == [loc, person, org];
  }

  lemma OverlapScenarioSelect(person: RecognizerResult, org: RecognizerResult, loc: RecognizerResult)
    requires person == RecognizerResult("PERSON", 0, 12, 85)
    requires org == RecognizerResult("ORGANIZATION", 0, 17, 70)
    requires loc == RecognizerResult("LOCATION", 21, 30, 90)
    ensures SelectSpans([loc, person, org]) == [loc, person]
  {
    var cands := [loc, person, org];
    assert cands[..2] == [loc, person];
    assert [loc, person][..1] == [loc];
    assert [loc][..0] == [];
    assert SelectSpans([loc]) == [loc];
    assert SelectSpans([loc, person]) == [loc, person];
    assert OverlapsResult(org, [loc, person][1]);
  }

  lemma OverlapScenarioReplace(person: RecognizerResult, loc: RecognizerResult)
    requires person == RecognizerResult("PERSON", 0, 12, 85)
    requires loc == RecognizerResult("LOCATION", 21, 30, 90)
    ensures Replace("Jan de Vries Bank in Amsterdam", [loc, person], DefaultOperators) == "[PERSOON] Bank in [LOCATIE]"
  {
    var text := "Jan de Vries Bank in Amsterdam";
    OverlapScenarioSegments(text, person, loc);
    ReplaceMatchesSegments(text, [person, loc], DefaultOperators, 0);
    assert PairwiseDisjoint([person, loc]) by {
      assert !OverlapsResult(person, loc);
    }
    assert multiset([person, loc]) == multiset([loc, person]);
    ReplaceOrderIndependent(text, [person, loc], [loc, person], DefaultOperators);
  }

  lemma OverlapScenarioSegments(text: string, person: RecognizerResult, loc: RecognizerResult)
    requires text == "Jan de Vries Bank in Amsterdam"
    requires person == RecognizerResult("PERSON", 0, 12, 85)
    requires loc == RecognizerResult("LOCATION", 21, 30, 90)
    ensures Chain(text, [person, loc], 0)
    ensures ReplaceSegments(text, [person, loc], DefaultOperators, 0) == "[PERSOON] Bank in [LOCATIE]"
  {
    assert [person, loc][1..] == [loc];
    assert [loc][1..] == [];
    assert Chain(text, [person, loc], 0);
    assert Token(DefaultOperators, "LOCATION") == "[LOCATIE]";
    assert Token(DefaultOperators, "PERSON") == "[PERSOON]";
    assert ReplaceSegments(text, [], DefaultOperators, 30) == text[30..];
    var tail := ReplaceSegments(text, [loc], DefaultOperators, 12);
    assert tail == text[12..21] + "[LOCATIE]" + text[30..];
    assert text[12..21] == " Bank in ";
    assert text[30..] == "";
    assert ReplaceSegments(text, [person, loc], DefaultOperators, 0) == text[0..0] + "[PERSOON]" + tail;
  }
}

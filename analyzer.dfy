/**
 * The post-processing loop of `DutchTextAnalyzer.analyze_text` (src/core/analyzer.py): sort the
 * detector output by priority, drop literal false positives, rename alias types, greedily reject
 * spans that overlap a kept one, and apply the LOCATION and PERSON post-filters.
 */
module CoreAnalyzer {
  import opened Wrappers
  import opened TextUtil
  import opened RecognizerResults

  /** The entity types requested from the detectors when the caller names none. */
  const DefaultEntities: seq<string> :=
    ["PERSON", "LOCATION", "PHONE_NUMBER", "EMAIL", "ORGANIZATION", "IBAN", "ADDRESS"]

  /** Heading and phrase texts that the detectors report but that are never personal data. */
  const FalsePositives: set<string> := {
    "Klantgesprek", "Hypotheekaanvraag", "Vervolgafspraken", "Contactgegevens",
    "Aanwezigen gesprek", "Met vriendelijke groet", "Hypotheekadviseur", "Financieel specialist",
    "Verslag Klantgesprek", "Tijdens het gesprek", "Voor vragen", "Met vriendelijke",
    "Het echtpaar", "Voor woensdag", "Vervolgafspraak gepland"
  }

  /** Words whose presence in a PERSON span (lower-cased) shows it is not a name. */
  const PersonStopWords: seq<string> := [
    "aan de", "voor de", "met de", "in de", "op de", "bij de",
    "wordt", "kunnen", "hebben", "moeten", "zullen", "ruimte",
    "contact", "kantoor", "tijdens", "bleek", "sprak", "momenteel"
  ]

  /** Country codes with which a bank-account number begins. */
  const IbanCountryPrefixes: seq<string> := ["NL", "BE", "DE"]

  function RequestedEntities(entities: Option<seq<string>>): seq<string>
  {
    if entities.None? then DefaultEntities else entities.value
  }

  /** The alias table: IBAN_CODE becomes IBAN and ORG becomes ORGANIZATION; every other type stays. */
  function Canonical(entityType: string): (t: string)
    ensures t != "IBAN_CODE" && t != "ORG"
    ensures entityType != "IBAN_CODE" && entityType != "ORG" ==> t == entityType
  {
    if entityType == "IBAN_CODE" then "IBAN"
    else if entityType == "ORG" then "ORGANIZATION"
    else entityType
  }

  function Renamed(r: RecognizerResult): (c: RecognizerResult)
    ensures c.start == r.start && c.end == r.end && c.score == r.score
    ensures c.entityType == Canonical(r.entityType)
  {
    r.(entityType := Canonical(r.entityType))
  }

  /** The sort key `(-score, -(end - start))` of an ascending sort, as a descending key. */
  function PriorityKey(r: RecognizerResult): Key
  {
    Key(r.score, r.end - r.start)
  }

  /** Upper-cased, the span begins with NL, BE or DE, and it holds a digit. */
  predicate LooksLikeIban(span: string)
  {
    && (exists k :: 0 <= k < |IbanCountryPrefixes| && StartsWith(Upper(span), IbanCountryPrefixes[k]))
    && HasDigit(span)
  }

  predicate HasStopWord(span: string)
  {
    exists k :: 0 <= k < |PersonStopWords| && Contains(Lower(span), PersonStopWords[k])
  }

  /**
   * The checks of the loop body that do not depend on what was kept before, applied to a result
   * whose type has already been renamed. `nameShape` stands for the three name regexes.
   */
  predicate Admissible(text: string, r: RecognizerResult, nameShape: string -> bool)
  {
    var span := Slice(text, r.start, r.end);
    && span !in FalsePositives
    && !(r.entityType == "LOCATION" && LooksLikeIban(span))
    && !(r.entityType == "PERSON" && (HasStopWord(span) || !nameShape(span)))
  }

  /** The decision the loop body takes for a renamed candidate, given the results kept so far. */
  predicate Keep(text: string, r: RecognizerResult, kept: seq<RecognizerResult>, nameShape: string -> bool)
  {
    Admissible(text, r, nameShape) && !OverlapsKept(r, kept)
  }

  /** The results kept after the loop has run over `cands` (already in priority order). */
  function Resolve(text: string, cands: seq<RecognizerResult>, nameShape: string -> bool): (filtered: seq<RecognizerResult>)
    decreases |cands|
  {
    if cands == [] then []
    else
      var kept := Resolve(text, cands[..|cands| - 1], nameShape);
      var r := Renamed(cands[|cands| - 1]);
      if Keep(text, r, kept, nameShape) then kept + [r] else kept
  }

  function MapRenamed(cands: seq<RecognizerResult>): (rs: seq<RecognizerResult>)
    ensures |rs| == |cands|
  {
    seq(|cands|, k requires 0 <= k < |cands| => Renamed(cands[k]))
  }

  /** What the output must satisfy by itself: every filter passed and no alias type left. */
  predicate Clean(text: string, r: RecognizerResult, nameShape: string -> bool)
  {
    Admissible(text, r, nameShape) && r.entityType != "IBAN_CODE" && r.entityType != "ORG"
  }

  lemma {:induction false} ResolveDisjoint(text: string, cands: seq<RecognizerResult>, nameShape: string -> bool)
    ensures PairwiseDisjoint(Resolve(text, cands, nameShape))
    decreases |cands|
  {
    if cands != [] {
      var p := cands[..|cands| - 1];
      ResolveDisjoint(text, p, nameShape);
      var kept := Resolve(text, p, nameShape);
      var r := Renamed(cands[|cands| - 1]);
      if Keep(text, r, kept, nameShape) {
        var out := kept + [r];
        forall i, j | 0 <= i < j < |out| ensures !OverlapsResult(out[i], out[j]) {
          if j == |kept| {
            assert out[i] == kept[i] && out[j] == r;
            assert !OverlapsResult(r, kept[i]);
          } else {
            assert out[i] == kept[i] && out[j] == kept[j];
          }
        }
      }
    }
  }

  lemma {:induction false} ResolveClean(text: string, cands: seq<RecognizerResult>, nameShape: string -> bool)
    ensures forall x :: x in Resolve(text, cands, nameShape) ==> Clean(text, x, nameShape)
    decreases |cands|
  {
    if cands != [] {
      ResolveClean(text, cands[..|cands| - 1], nameShape);
    }
  }

  /** Every output is an input with only its type renamed. */
  lemma {:induction false} ResolveMembers(text: string, cands: seq<RecognizerResult>, nameShape: string -> bool)
    ensures forall x :: x in Resolve(text, cands, nameShape) ==> exists j :: 0 <= j < |cands| && x == Renamed(cands[j])
    decreases |cands|
  {
    if cands != [] {
      var p := cands[..|cands| - 1];
      ResolveMembers(text, p, nameShape);
      forall x | x in Resolve(text, cands, nameShape)
        ensures exists j :: 0 <= j < |cands| && x == Renamed(cands[j])
      {
        if x in Resolve(text, p, nameShape) {
          var j :| 0 <= j < |p| && x == Renamed(p[j]);
          assert cands[j] == p[j];
        } else {
          assert x == Renamed(cands[|cands| - 1]);
        }
      }
    }
  }

  /** The output is a subsequence of the renamed candidates. */
  lemma {:induction false} ResolveSubseq(text: string, cands: seq<RecognizerResult>, nameShape: string -> bool)
    ensures IsSubseq(Resolve(text, cands, nameShape), MapRenamed(cands))
    decreases |cands|
  {
    if cands != [] {
      var p := cands[..|cands| - 1];
      ResolveSubseq(text, p, nameShape);
      var kept := Resolve(text, p, nameShape);
      var b := MapRenamed(cands);
      assert b[..|b| - 1] == MapRenamed(p);
      var r := Renamed(cands[|cands| - 1]);
      if Keep(text, r, kept, nameShape) {
        var a := kept + [r];
        assert a[|a| - 1] == b[|b| - 1];
        assert a[..|a| - 1] == kept;
      }
    }
  }

  /** Kept in priority order: renaming does not change the key, and the loop only appends. */
  lemma {:induction false} ResolveSorted(text: string, cands: seq<RecognizerResult>, nameShape: string -> bool)
    requires SortedDesc(cands, PriorityKey)
    ensures SortedDesc(Resolve(text, cands, nameShape), PriorityKey)
    decreases |cands|
  {
    if cands != [] {
      var p := cands[..|cands| - 1];
      assert SortedDesc(p, PriorityKey) by {
        forall i, j | 0 <= i < j < |p| ensures KeyGe(PriorityKey(p[i]), PriorityKey(p[j])) {
          assert p[i] == cands[i] && p[j] == cands[j];
        }
      }
      ResolveSorted(text, p, nameShape);
      ResolveMembers(text, p, nameShape);
      var kept := Resolve(text, p, nameShape);
      var last := cands[|cands| - 1];
      var r := Renamed(last);
      if Keep(text, r, kept, nameShape) {
        var out := kept + [r];
        forall i, j | 0 <= i < j < |out| ensures KeyGe(PriorityKey(out[i]), PriorityKey(out[j])) {
          if j == |kept| {
            assert out[i] in kept;
            var m :| 0 <= m < |p| && out[i] == Renamed(p[m]);
            assert p[m] == cands[m];
            assert KeyGe(PriorityKey(cands[m]), PriorityKey(last));
          } else {
            assert out[i] == kept[i] && out[j] == kept[j];
          }
        }
      }
    }
  }

  /** What the loop has kept after `i` candidates is never taken back. */
  lemma {:induction false} ResolvePrefix(text: string, cands: seq<RecognizerResult>, nameShape: string -> bool, i: nat)
    requires i <= |cands|
    ensures Resolve(text, cands[..i], nameShape) <= Resolve(text, cands, nameShape)
    decreases |cands|
  {
    if i < |cands| {
      var p := cands[..|cands| - 1];
      assert p[..i] == cands[..i];
      ResolvePrefix(text, p, nameShape, i);
    } else {
      assert cands[..i] == cands;
    }
  }

  /**
   * Greedy maximality: a candidate that passes every filter and overlaps none of the results kept
   * before it is in the output; a candidate rejected by a filter reserves no range.
   */
  lemma ResolveMaximal(text: string, cands: seq<RecognizerResult>, nameShape: string -> bool, i: nat)
    requires i < |cands|
    ensures Keep(text, Renamed(cands[i]), Resolve(text, cands[..i], nameShape), nameShape)
            ==> Renamed(cands[i]) in Resolve(text, cands, nameShape)
    ensures !Admissible(text, Renamed(cands[i]), nameShape)
            ==> Resolve(text, cands[..i + 1], nameShape) == Resolve(text, cands[..i], nameShape)
  {
    var q := cands[..i + 1];
    var kept := Resolve(text, cands[..i], nameShape);
    var r := Renamed(cands[i]);
    assert Resolve(text, q, nameShape) == (if Keep(text, r, kept, nameShape) then kept + [r] else kept) by {
      assert q[..|q| - 1] == cands[..i];
      assert q[|q| - 1] == cands[i];
    }
    if Keep(text, r, kept, nameShape) {
      ResolvePrefix(text, cands, nameShape, i + 1);
      assert Resolve(text, q, nameShape)[|kept|] == r;
    }
  }

  /** Two overlapping detections of equal score: the longer one is kept, whatever the input order. */
  lemma TieBreakKeepsLonger(text: string, a: RecognizerResult, b: RecognizerResult, nameShape: string -> bool)
    requires a.score == b.score && a.end - a.start > b.end - b.start
    requires OverlapsResult(a, b)
    requires Admissible(text, Renamed(a), nameShape)
    ensures Resolve(text, SortDesc([a, b], PriorityKey), nameShape) == [Renamed(a)]
    ensures Resolve(text, SortDesc([b, a], PriorityKey), nameShape) == [Renamed(a)]
  {
    assert [a, b][1..] == [b];
    assert [b, a][1..] == [a];
    assert SortDesc([b], PriorityKey) == [b];
    assert SortDesc([a], PriorityKey) == [a];
    assert SortDesc([a, b], PriorityKey) == [a, b];
    assert SortDesc([b, a], PriorityKey) == [a, b];
    var s := [a, b];
    assert s[..1] == [a];
    assert s[..1][..0] == [];
    assert Resolve(text, [a], nameShape) == [Renamed(a)];
    assert OverlapsResult(Renamed(b), [Renamed(a)][0]);
  }

  /**
   * What the filter loop guarantees for any detector output once it is sorted by priority: the
   * kept spans are disjoint, clean, renamed detections, and still in priority order.
   */
  lemma ResolveOutput(text: string, raw: seq<RecognizerResult>, nameShape: string -> bool)
    ensures PairwiseDisjoint(Resolve(text, SortDesc(raw, PriorityKey), nameShape))
    ensures forall x :: x in Resolve(text, SortDesc(raw, PriorityKey), nameShape) ==> Clean(text, x, nameShape)
    ensures forall x :: x in Resolve(text, SortDesc(raw, PriorityKey), nameShape) ==> exists y :: y in raw && x == Renamed(y)
    ensures SortedDesc(Resolve(text, SortDesc(raw, PriorityKey), nameShape), PriorityKey)
  {
    var results := SortDesc(raw, PriorityKey);
    ResolveDisjoint(text, results, nameShape);
    ResolveClean(text, results, nameShape);
    ResolveMembers(text, results, nameShape);
    SortDescSorted(raw, PriorityKey);
    ResolveSorted(text, results, nameShape);
    forall x | x in Resolve(text, results, nameShape)
      ensures exists y :: y in raw && x == Renamed(y)
    {
      var j :| 0 <= j < |results| && x == Renamed(results[j]);
      assert results[j] in multiset(results);
    }
  }

  /**
   * `analyze_text`: ask the detectors (`analyze`, Presidio's AnalyzerEngine) for the requested
   * types, sort their output in place by priority, and run the filter loop over it.
   */
  method AnalyzeText(text: string, entities: Option<seq<string>>,
                     analyze: (string, seq<string>) -> seq<RecognizerResult>,
                     nameShape: string -> bool)
    returns (filteredResults: seq<RecognizerResult>)
    ensures filteredResults == Resolve(text, SortDesc(analyze(text, RequestedEntities(entities)), PriorityKey), nameShape)
    ensures PairwiseDisjoint(filteredResults)
    ensures forall x :: x in filteredResults ==> Clean(text, x, nameShape)
    ensures forall x :: x in filteredResults ==> exists y :: y in analyze(text, RequestedEntities(entities)) && x == Renamed(y)
    ensures SortedDesc(filteredResults, PriorityKey)
  {
    var results := SortDesc(analyze(text, RequestedEntities(entities)), PriorityKey);
    filteredResults := [];
    var usedRanges: seq<(int, int)> := [];
    var i := 0;
    while i < |results|
      invariant 0 <= i <= |results|
      invariant filteredResults == Resolve(text, results[..i], nameShape)
      invariant usedRanges == RangesOf(filteredResults)
    {
      var result := results[i];
      i := i + 1;
      assert results[..i][..i - 1] == results[..i - 1];
      assert results[..i][i - 1] == result;
      var textSpan := Slice(text, result.start, result.end);
      if textSpan in FalsePositives {
        continue;
      }
      if result.entityType == "IBAN_CODE" {
        result := result.(entityType := "IBAN");
      } else if result.entityType == "ORG" {
        result := result.(entityType := "ORGANIZATION");
      }
      var overlaps := OverlapsAny(usedRanges, result.start, result.end);
      RangesOverlap(result, filteredResults);
      if overlaps {
        continue;
      }
      if result.entityType == "LOCATION" && LooksLikeIban(textSpan) {
        continue;
      }
      if result.entityType == "PERSON" {
        if HasStopWord(textSpan) {
          continue;
        }
        if !nameShape(textSpan) {
          continue;
        }
      }
      filteredResults := filteredResults + [result];
      usedRanges := usedRanges + [(result.start, result.end)];
    }
    assert results[..i] == results;
    ResolveOutput(text, analyze(text, RequestedEntities(entities)), nameShape);
  }
}

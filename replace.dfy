/**
 * The `replace` operator of Presidio's AnonymizerEngine, which both anonymizers delegate to: the
 * text is walked once, each span is replaced by its operator's new value and the gaps are copied.
 */
module PresidioReplace {
  import opened Wrappers
  import opened RecognizerResults

  /** `OperatorConfig("replace", {"new_value": v})`. */
  datatype OperatorConfig = ReplaceOperator(newValue: string)

  /**
   * The replacement for one entity type: its own operator, else the "DEFAULT" one; an absent or
   * empty new value gives `<ENTITY_TYPE>`.
   */
  function Token(operators: map<string, OperatorConfig>, entityType: string): (t: string)
    ensures t != ""
    ensures entityType in operators && operators[entityType].newValue != ""
            ==> t == operators[entityType].newValue
  {
    var newValue :=
      if entityType in operators then operators[entityType].newValue
      else if "DEFAULT" in operators then operators["DEFAULT"].newValue
      else "";
    if newValue == "" then "<" + entityType + ">" else newValue
  }

  /**
   * The first span that starts at `pos` and ends after it, if any. The walk skips an empty or
   * reversed span, where Presidio would insert the token for an empty one.
   */
  function SpanAt(spans: seq<RecognizerResult>, pos: int): (r: Option<RecognizerResult>)
    ensures r.Some? ==> r.value.start == pos < r.value.end
    decreases |spans|
  {
    if spans == [] then None
    else if spans[0].start == pos < spans[0].end then Some(spans[0])
    else SpanAt(spans[1..], pos)
  }

  /** A span is found exactly when some span of the list starts at `pos` and ends after it. */
  lemma {:induction false} SpanAtFacts(spans: seq<RecognizerResult>, pos: int)
    ensures SpanAt(spans, pos).Some? ==>
              SpanAt(spans, pos).value in spans && SpanAt(spans, pos).value.start == pos < SpanAt(spans, pos).value.end
    ensures SpanAt(spans, pos).None? ==> forall s :: s in spans ==> !(s.start == pos < s.end)
    decreases |spans|
  {
    if spans != [] && !(spans[0].start == pos < spans[0].end) {
      SpanAtFacts(spans[1..], pos);
      assert forall s :: s in spans ==> s == spans[0] || s in spans[1..];
    }
  }

  /** The text from `pos` on, with every span that starts at a visited position substituted. */
  function ReplaceFrom(text: string, spans: seq<RecognizerResult>, operators: map<string, OperatorConfig>, pos: nat): (r: string)
    decreases |text| - pos
  {
    if pos >= |text| then ""
    else match SpanAt(spans, pos)
      case Some(s) => Token(operators, s.entityType) + ReplaceFrom(text, spans, operators, s.end)
      case None => [text[pos]] + ReplaceFrom(text, spans, operators, pos + 1)
  }

  /**
   * `AnonymizerEngine.anonymize(text, spans, operators).text` for replace operators and spans with
   * `0 <= start < end <= |text|`; Presidio rejects a span ending past the text, which the walk
   * simply stops at.
   */
  function Replace(text: string, spans: seq<RecognizerResult>, operators: map<string, OperatorConfig>): (r: string)
  {
    ReplaceFrom(text, spans, operators, 0)
  }

  /** The spans, in order, are inside the text, non-empty, start at or after `pos` and do not overlap. */
  predicate Chain(text: string, spans: seq<RecognizerResult>, pos: int)
    decreases |spans|
  {
    if spans == [] then pos <= |text|
    else pos <= spans[0].start < spans[0].end <= |text| && Chain(text, spans[1..], spans[0].end)
  }

  /** Reference definition: copy each gap, then the span's token, span after span. */
  function ReplaceSegments(text: string, spans: seq<RecognizerResult>, operators: map<string, OperatorConfig>, pos: nat): string
    requires Chain(text, spans, pos)
    decreases |spans|
  {
    if spans == [] then text[pos..]
    else text[pos..spans[0].start] + Token(operators, spans[0].entityType)
         + ReplaceSegments(text, spans[1..], operators, spans[0].end)
  }

  lemma {:induction false} ChainBounds(text: string, spans: seq<RecognizerResult>, pos: int)
    requires Chain(text, spans, pos)
    ensures forall s :: s in spans ==> pos <= s.start < s.end <= |text|
    decreases |spans|
  {
    if spans != [] {
      ChainBounds(text, spans[1..], spans[0].end);
      assert forall s :: s in spans ==> s == spans[0] || s in spans[1..];
    }
  }

  /** With no spans the text is copied unchanged. */
  lemma {:induction false} ReplaceNoSpans(text: string, operators: map<string, OperatorConfig>, pos: nat)
    requires pos <= |text|
    ensures ReplaceFrom(text, [], operators, pos) == text[pos..]
    decreases |text| - pos
  {
    if pos < |text| {
      ReplaceNoSpans(text, operators, pos + 1);
      assert text[pos..] == [text[pos]] + text[pos + 1..];
    }
  }

  /** Where no span starts, the walk copies one character. */
  lemma ReplaceCopy(text: string, spans: seq<RecognizerResult>, operators: map<string, OperatorConfig>, pos: nat)
    requires pos < |text|
    requires forall s :: s in spans ==> !(s.start == pos < s.end)
    ensures ReplaceFrom(text, spans, operators, pos) == [text[pos]] + ReplaceFrom(text, spans, operators, pos + 1)
  {
    SpanAtFacts(spans, pos);
  }

  /** A stretch where no span starts is copied verbatim. */
  lemma {:induction false} ReplaceGap(text: string, spans: seq<RecognizerResult>, operators: map<string, OperatorConfig>, pos: nat, q: nat)
    requires pos <= q <= |text|
    requires forall s :: s in spans ==> !(pos <= s.start < q && s.start < s.end)
    ensures ReplaceFrom(text, spans, operators, pos) == text[pos..q] + ReplaceFrom(text, spans, operators, q)
    decreases q - pos
  {
    if pos < q {
      var here := ReplaceFrom(text, spans, operators, pos);
      var next := ReplaceFrom(text, spans, operators, pos + 1);
      var tail := ReplaceFrom(text, spans, operators, q);
      assert here == [text[pos]] + next by {
        ReplaceCopy(text, spans, operators, pos);
      }
      assert next == text[pos + 1..q] + tail by {
        ReplaceGap(text, spans, operators, pos + 1, q);
      }
      assert text[pos..q] == [text[pos]] + text[pos + 1..q];
      PrependJoin(text[pos], text[pos + 1..q], tail);
    } else {
      assert text[pos..q] == [];
    }
  }

  lemma PrependJoin(c: char, a: string, t: string)
    ensures [c] + (a + t) == ([c] + a) + t
  {
  }

  /** A span that starts before the walk's position is never consulted again. */
  lemma {:induction false} ReplaceDrop(text: string, s: RecognizerResult, rest: seq<RecognizerResult>,
                                       operators: map<string, OperatorConfig>, pos: nat)
    requires s.start < pos
    ensures ReplaceFrom(text, [s] + rest, operators, pos) == ReplaceFrom(text, rest, operators, pos)
    decreases |text| - pos
  {
    if pos < |text| {
      assert ([s] + rest)[0] == s && ([s] + rest)[1..] == rest;
      assert SpanAt([s] + rest, pos) == SpanAt(rest, pos);
      match SpanAt(rest, pos)
      case Some(t) => ReplaceDrop(text, s, rest, operators, t.end);
      case None => ReplaceDrop(text, s, rest, operators, pos + 1);
    }
  }

  /** For spans in start order the walk produces exactly the segment-wise replacement. */
  lemma {:induction false} ReplaceMatchesSegments(text: string, spans: seq<RecognizerResult>,
                                                  operators: map<string, OperatorConfig>, pos: nat)
    requires Chain(text, spans, pos)
    ensures ReplaceFrom(text, spans, operators, pos) == ReplaceSegments(text, spans, operators, pos)
    decreases |spans|
  {
    if spans == [] {
      ReplaceNoSpans(text, operators, pos);
    } else {
      var s0 := spans[0];
      var rest := spans[1..];
      var gap := text[pos..s0.start];
      var token := Token(operators, s0.entityType);
      var after := ReplaceFrom(text, rest, operators, s0.end);
      assert ReplaceFrom(text, spans, operators, pos) == gap + ReplaceFrom(text, spans, operators, s0.start) by {
        ChainBounds(text, rest, s0.end);
        assert forall s :: s in spans ==> s == s0 || s in rest;
        ReplaceGap(text, spans, operators, pos, s0.start);
      }
      assert ReplaceFrom(text, spans, operators, s0.start) == token + after by {
        assert SpanAt(spans, s0.start) == Some(s0);
        assert spans == [s0] + rest;
        ReplaceDrop(text, s0, rest, operators, s0.end);
      }
      assert after == ReplaceSegments(text, rest, operators, s0.end) by {
        ReplaceMatchesSegments(text, rest, operators, s0.end);
      }
      JoinAssoc(gap, token, after);
    }
  }

  lemma JoinAssoc(a: string, b: string, c: string)
    ensures a + (b + c) == a + b + c
  {
  }

  /** Two span lists that agree on which span starts where give the same output. */
  lemma {:induction false} ReplaceCongruent(text: string, a: seq<RecognizerResult>, b: seq<RecognizerResult>,
                                            operators: map<string, OperatorConfig>, pos: nat)
    requires forall p :: SpanAt(a, p) == SpanAt(b, p)
    ensures ReplaceFrom(text, a, operators, pos) == ReplaceFrom(text, b, operators, pos)
    decreases |text| - pos
  {
    if pos < |text| {
      match SpanAt(a, pos)
      case Some(t) => ReplaceCongruent(text, a, b, operators, t.end);
      case None => ReplaceCongruent(text, a, b, operators, pos + 1);
    }
  }

  /** In a disjoint list no two non-empty spans start at the same position. */
  lemma StartsDistinct(a: seq<RecognizerResult>)
    requires PairwiseDisjoint(a)
    ensures forall i, j :: (0 <= i < |a| && 0 <= j < |a| && a[i].start == a[j].start
                            && a[i].start < a[i].end && a[j].start < a[j].end) ==> i == j
  {
    forall i, j | 0 <= i < j < |a| && a[i].start < a[i].end && a[j].start < a[j].end
      ensures a[i].start != a[j].start
    {
      assert a[i] in a && a[j] in a;
      assert !OverlapsResult(a[i], a[j]);
    }
  }

  /** So a non-empty span of a disjoint list is the one found at its start. */
  lemma SpanAtUnique(a: seq<RecognizerResult>, s: RecognizerResult)
    requires PairwiseDisjoint(a)
    requires s in a && s.start < s.end
    ensures SpanAt(a, s.start) == Some(s)
  {
    SpanAtFacts(a, s.start);
    var t := SpanAt(a, s.start).value;
    var i :| 0 <= i < |a| && a[i] == s;
    var j :| 0 <= j < |a| && a[j] == t;
    StartsDistinct(a);
    assert a[i].start == a[j].start;
    assert i == j;
  }

  /** Replacement does not depend on the order in which disjoint spans are listed. */
  lemma ReplaceOrderIndependent(text: string, a: seq<RecognizerResult>, b: seq<RecognizerResult>,
                                operators: map<string, OperatorConfig>)
    requires PairwiseDisjoint(a)
    requires multiset(a) == multiset(b)
    ensures Replace(text, a, operators) == Replace(text, b, operators)
  {
    assert forall x :: x in b <==> x in a by {
      forall x ensures x in b <==> x in a {
        assert x in b <==> x in multiset(b);
        assert x in a <==> x in multiset(a);
      }
    }
    forall p ensures SpanAt(a, p) == SpanAt(b, p) {
      match SpanAt(b, p)
      case Some(t) =>
        SpanAtFacts(b, p);
        SpanAtUnique(a, t);
      case None =>
        SpanAtFacts(b, p);
        SpanAtFacts(a, p);
    }
    ReplaceCongruent(text, a, b, operators, 0);
  }
}

/**
 * `DutchTextAnonymizer` of src/anonymizer/engine.py: a chain of guard checks on the text, the
 * analyzer results and the operator table, then Presidio's replace with either the built-in
 * table or the caller's.
 */
module AnonymizerEngine {
  import opened Wrappers
  import opened TextUtil
  import opened RecognizerResults
  import opened PresidioReplace

  /** A value of the caller's operator dict: an `OperatorConfig`, or any other Python object. */
  datatype OperatorValue = Config(config: OperatorConfig) | OtherValue

  /** The `ValueError`s `anonymize_text` raises, one per guard. */
  datatype EngineError = EmptyText | ResultsNone | EmptyOperators | MissingOperators | NotOperatorConfig

  /** The message each `ValueError` carries. */
  function Message(e: EngineError): string
  {
    match e
    case EmptyText => "Text cannot be empty"
    case ResultsNone => "Analyzer results cannot be None"
    case EmptyOperators => "Operators dictionary cannot be empty"
    case MissingOperators => "Missing operators for some entity types"
    case NotOperatorConfig => "All operators must be OperatorConfig objects"
  }

  /** The built-in table of this anonymizer (six entries, keyed on IBAN_CODE). */
  const DefaultOperators: map<string, OperatorConfig> := map[
    "PERSON" := ReplaceOperator("[NAAM]"),
    "LOCATION" := ReplaceOperator("[LOCATIE]"),
    "PHONE_NUMBER" := ReplaceOperator("[TELEFOONNUMMER]"),
    "IBAN_CODE" := ReplaceOperator("[REKENINGNUMMER]"),
    "EMAIL" := ReplaceOperator("[EMAIL]"),
    "ORGANIZATION" := ReplaceOperator("[ORGANISATIE]")
  ]

  /** Exactly six types, each with its own token. */
  lemma DefaultOperatorsShape()
    ensures DefaultOperators.Keys == {"PERSON", "LOCATION", "PHONE_NUMBER", "IBAN_CODE", "EMAIL", "ORGANIZATION"}
    ensures |DefaultOperators.Keys| == 6
    ensures Token(DefaultOperators, "PERSON") == "[NAAM]"
    ensures Token(DefaultOperators, "LOCATION") == "[LOCATIE]"
    ensures Token(DefaultOperators, "PHONE_NUMBER") == "[TELEFOONNUMMER]"
    ensures Token(DefaultOperators, "IBAN_CODE") == "[REKENINGNUMMER]"
    ensures Token(DefaultOperators, "EMAIL") == "[EMAIL]"
    ensures Token(DefaultOperators, "ORGANIZATION") == "[ORGANISATIE]"
  {
    assert DefaultOperators.Keys == {"PERSON", "LOCATION", "PHONE_NUMBER", "IBAN_CODE", "EMAIL", "ORGANIZATION"};
  }

  /** The default tokens the scenarios below rely on. */
  lemma DefaultTokens()
    ensures Token(DefaultOperators, "PERSON") == "[NAAM]"
    ensures Token(DefaultOperators, "LOCATION") == "[LOCATIE]"
    ensures Token(DefaultOperators, "PHONE_NUMBER") == "[TELEFOONNUMMER]"
    ensures Token(DefaultOperators, "IBAN_CODE") == "[REKENINGNUMMER]"
  {
    DefaultOperatorsShape();
  }

  /** `set(result.entity_type for result in analyzer_results)`. */
  function EntityTypes(results: seq<RecognizerResult>): (types: set<string>)
    ensures forall r :: r in results ==> r.entityType in types
    ensures forall t :: t in types ==> exists r :: r in results && r.entityType == t
  {
    set r | r in results :: r.entityType
  }

  /** The result types the caller's dict has no key for. */
  function MissingOperatorTypes(results: seq<RecognizerResult>, operators: map<string, OperatorValue>): (missing: set<string>)
    ensures forall t :: t in missing <==> t in EntityTypes(results) && t !in operators
  {
    EntityTypes(results) - operators.Keys
  }

  /** `all(isinstance(op, OperatorConfig) for op in operators.values())`. */
  predicate AllConfigs(operators: map<string, OperatorValue>)
  {
    forall k :: k in operators ==> operators[k].Config?
  }

  /** The caller's dict as Presidio receives it. */
  function Configs(operators: map<string, OperatorValue>): (ops: map<string, OperatorConfig>)
    requires AllConfigs(operators)
    ensures ops.Keys == operators.Keys
    ensures forall k :: k in ops ==> operators[k] == Config(ops[k])
  {
    map k | k in operators :: operators[k].config
  }

  /**
   * `anonymize_text`: the guards raise in the order the code checks them; a `None` table selects
   * the defaults with no further check, a supplied one is checked for emptiness, for a key per
   * result type and for its value types, and then it alone is used.
   */
  function AnonymizeText(text: string, analyzerResults: Option<seq<RecognizerResult>>,
                         operators: Option<map<string, OperatorValue>>): (r: Result<string, EngineError>)
    ensures r == Err(EmptyText) <==> text == ""
    ensures text != "" ==> (r == Err(ResultsNone) <==> analyzerResults.None?)
    ensures text != "" && analyzerResults.Some? && operators.None?
            ==> r == Ok(Replace(text, analyzerResults.value, DefaultOperators))
    ensures text != "" && analyzerResults.Some? && operators.Some?
            ==> (r == Err(EmptyOperators) <==> operators.value == map[])
    ensures text != "" && analyzerResults.Some? && operators.Some? && operators.value != map[]
            ==> (r == Err(MissingOperators) <==> MissingOperatorTypes(analyzerResults.value, operators.value) != {})
    ensures text != "" && analyzerResults.Some? && operators.Some? && operators.value != map[]
            && MissingOperatorTypes(analyzerResults.value, operators.value) == {}
            ==> (r == Err(NotOperatorConfig) <==> !AllConfigs(operators.value))
    ensures r.Ok? && operators.Some? ==>
              AllConfigs(operators.value)
              && r.value == Replace(text, analyzerResults.value, Configs(operators.value))
  {
    if text == "" then Err(EmptyText)
    else if analyzerResults.None? then Err(ResultsNone)
    else if operators.None? then Ok(Replace(text, analyzerResults.value, DefaultOperators))
    else if operators.value == map[] then Err(EmptyOperators)
    else if MissingOperatorTypes(analyzerResults.value, operators.value) != {} then Err(MissingOperators)
    else if !AllConfigs(operators.value) then Err(NotOperatorConfig)
    else Ok(Replace(text, analyzerResults.value, Configs(operators.value)))
  }

  /**
   * A call that succeeds with the caller's table replaces every span by that table's own token
   * for its type: the defaults are never consulted.
   */
  lemma CustomOperatorsOwnTokens(text: string, results: seq<RecognizerResult>, operators: map<string, OperatorValue>)
    requires AnonymizeText(text, Some(results), Some(operators)).Ok?
    ensures forall x :: x in results ==>
              x.entityType in operators && operators[x.entityType].Config?
              && (operators[x.entityType].config.newValue != ""
                  ==> Token(Configs(operators), x.entityType) == operators[x.entityType].config.newValue)
  {
    forall x | x in results
      ensures x.entityType in operators
    {
      assert x.entityType !in MissingOperatorTypes(results, operators);
    }
  }

  /** With no results the text comes back unchanged, whichever table is used. */
  lemma NoResultsKeepText(text: string, operators: Option<map<string, OperatorValue>>)
    requires text != ""
    requires operators.None? || (operators.value != map[] && AllConfigs(operators.value))
    ensures AnonymizeText(text, Some([]), operators) == Ok(text)
  {
    ReplaceNoSpans(text, DefaultOperators, 0);
    if operators.Some? {
      ReplaceNoSpans(text, Configs(operators.value), 0);
    }
  }

  /** The two-span replacement the scenarios below share, on the segment reference. */
  lemma TwoSpans(text: string, a: RecognizerResult, b: RecognizerResult, ops: map<string, OperatorConfig>)
    requires 0 <= a.start < a.end <= b.start < b.end <= |text|
    ensures Replace(text, [a, b], ops)
            == text[..a.start] + Token(ops, a.entityType) + text[a.end..b.start] + Token(ops, b.entityType) + text[b.end..]
  {
    assert [a, b][1..] == [b];
    assert [b][1..] == [];
    assert Chain(text, [a, b], 0);
    ReplaceMatchesSegments(text, [a, b], ops, 0);
    assert ReplaceSegments(text, [], ops, b.end) == text[b.end..];
    var tail := ReplaceSegments(text, [b], ops, a.end);
    assert tail == text[a.end..b.start] + Token(ops, b.entityType) + text[b.end..];
    assert ReplaceSegments(text, [a, b], ops, 0) == text[0..a.start] + Token(ops, a.entityType) + tail;
  }

  /** Without a caller table, a call on non-empty text is the replace with the defaults. */
  lemma DefaultsUsed(text: string, results: seq<RecognizerResult>)
    requires text != ""
    ensures AnonymizeText(text, Some(results), None) == Ok(Replace(text, results, DefaultOperators))
  {
  }

  /** One span replaced, on the segment reference. */
  lemma OneSpan(text: string, a: RecognizerResult, ops: map<string, OperatorConfig>)
    requires 0 <= a.start < a.end <= |text|
    ensures Replace(text, [a], ops) == text[..a.start] + Token(ops, a.entityType) + text[a.end..]
  {
    assert [a][1..] == [];
    assert Chain(text, [a], 0);
    ReplaceMatchesSegments(text, [a], ops, 0);
    assert ReplaceSegments(text, [], ops, a.end) == text[a.end..];
    assert ReplaceSegments(text, [a], ops, 0) == text[0..a.start] + Token(ops, a.entityType) + text[a.end..];
  }

  /** A one-span call with the defaults, from the pieces around the span. */
  lemma OneSpanDefaults(text: string, a: RecognizerResult, before: string, token: string, after: string)
    requires 0 <= a.start < a.end <= |text|
    requires text[..a.start] == before && text[a.end..] == after
    requires Token(DefaultOperators, a.entityType) == token
    ensures AnonymizeText(text, Some([a]), None) == Ok(before + token + after)
  {
    DefaultsUsed(text, [a]);
    OneSpan(text, a, DefaultOperators);
  }

  /** A two-span call with the defaults, from the pieces around the spans. */
  lemma TwoSpansDefaults(text: string, a: RecognizerResult, b: RecognizerResult,
                         before: string, tokenA: string, between: string, tokenB: string, after: string)
    requires 0 <= a.start < a.end <= b.start < b.end <= |text|
    requires text[..a.start] == before && text[a.end..b.start] == between && text[b.end..] == after
    requires Token(DefaultOperators, a.entityType) == tokenA && Token(DefaultOperators, b.entityType) == tokenB
    ensures AnonymizeText(text, Some([a, b]), None) == Ok(before + tokenA + between + tokenB + after)
  {
    DefaultsUsed(text, [a, b]);
    TwoSpans(text, a, b, DefaultOperators);
  }

  /** The expected outputs of the scenarios below, spelled as their pieces. */
  lemma SentenceOutput()
    ensures "" + "[NAAM]" + " woont in " + "[LOCATIE]" + "." == "[NAAM] woont in [LOCATIE]."
  {
  }

  lemma ShiftedSentenceOutput()
    ensures "" + "[NAAM]" + " woont in A" + "[LOCATIE]" + "" == "[NAAM] woont in A[LOCATIE]"
  {
  }

  lemma IbanOutput()
    ensures "IBAN: " + "[REKENINGNUMMER]" + "" == "IBAN: [REKENINGNUMMER]"
  {
  }

  lemma PhoneOutput()
    ensures "Bel mij op" + "[TELEFOONNUMMER]" + "8" == "Bel mij op[TELEFOONNUMMER]8"
  {
  }

  lemma PhoneNumberOutput()
    ensures "Bel mij op " + "[TELEFOONNUMMER]" + "" == "Bel mij op [TELEFOONNUMMER]"
  {
  }

  lemma CustomSentenceOutput()
    ensures "" + "<PERSOON>" + " woont in " + "<PLAATS>" + "." == "<PERSOON> woont in <PLAATS>."
  {
  }

  lemma CustomShiftedSentenceOutput()
    ensures "" + "<PERSOON>" + " woont in A" + "<PLAATS>" + "" == "<PERSOON> woont in A<PLAATS>"
  {
  }

  /** "Jan de Vries woont in Amsterdam." with PERSON [0,12) and LOCATION [22,31). */
  lemma PersonLocationScenario(text: string, person: RecognizerResult, loc: RecognizerResult)
    requires text == "Jan de Vries woont in Amsterdam."
    requires person == RecognizerResult("PERSON", 0, 12, 85)
    requires loc == RecognizerResult("LOCATION", 22, 31, 85)
    ensures AnonymizeText(text, Some([person, loc]), None) == Ok("[NAAM] woont in [LOCATIE].")
  {
    SentenceSlices(text);
    DefaultTokens();
    TwoSpansDefaults(text, person, loc, "", "[NAAM]", " woont in ", "[LOCATIE]", ".");
    SentenceOutput();
  }

  /** The pieces of the test sentence around its two spans. */
  lemma SentenceSlices(text: string)
    requires text == "Jan de Vries woont in Amsterdam."
    ensures |text| == 32
    ensures text[..0] == "" && text[12..22] == " woont in " && text[31..] == "."
    ensures text[12..23] == " woont in A" && text[32..] == ""
  {
  }

  /**
   * The same text with the LOCATION span at [23,32), as the unit test's fixture gives it: the
   * span starts one character into "Amsterdam", so its first letter survives.
   */
  lemma ShiftedLocationScenario(text: string, person: RecognizerResult, loc: RecognizerResult)
    requires text == "Jan de Vries woont in Amsterdam."
    requires person == RecognizerResult("PERSON", 0, 12, 85)
    requires loc == RecognizerResult("LOCATION", 23, 32, 90)
    ensures AnonymizeText(text, Some([person, loc]), None) == Ok("[NAAM] woont in A[LOCATIE]")
  {
    SentenceSlices(text);
    DefaultTokens();
    TwoSpansDefaults(text, person, loc, "", "[NAAM]", " woont in A", "[LOCATIE]", "");
    ShiftedSentenceOutput();
  }

  /** "IBAN: NL91ABNA0417164300" with IBAN_CODE [6,24). */
  lemma IbanScenario(text: string, iban: RecognizerResult)
    requires text == "IBAN: NL91ABNA0417164300"
    requires iban == RecognizerResult("IBAN_CODE", 6, 24, 90)
    ensures AnonymizeText(text, Some([iban]), None) == Ok("IBAN: [REKENINGNUMMER]")
  {
    IbanSlices(text);
    DefaultTokens();
    OneSpanDefaults(text, iban, "IBAN: ", "[REKENINGNUMMER]", "");
    IbanOutput();
  }

  lemma IbanSlices(text: string)
    requires text == "IBAN: NL91ABNA0417164300"
    ensures |text| == 24 && text[..6] == "IBAN: " && text[24..] == ""
  {
  }

  /** "Bel mij op 06-12345678" with PHONE_NUMBER [10,21): the span is one character early. */
  lemma PhoneScenario(text: string, phone: RecognizerResult)
    requires text == "Bel mij op 06-12345678"
    requires phone == RecognizerResult("PHONE_NUMBER", 10, 21, 90)
    ensures AnonymizeText(text, Some([phone]), None) == Ok("Bel mij op[TELEFOONNUMMER]8")
  {
    PhoneSlices(text);
    DefaultTokens();
    OneSpanDefaults(text, phone, "Bel mij op", "[TELEFOONNUMMER]", "8");
    PhoneOutput();
  }

  lemma PhoneSlices(text: string)
    requires text == "Bel mij op 06-12345678"
    ensures |text| == 22 && text[..10] == "Bel mij op" && text[21..] == "8"
  {
  }

  lemma PhoneNumberSlices(text: string)
    requires text == "Bel mij op 06-12345678"
    ensures |text| == 22 && text[..11] == "Bel mij op " && text[22..] == ""
  {
  }

  /** With the span on the number itself, [11,22), the whole number is replaced and the space kept. */
  lemma PhoneScenarioCorrected(text: string, phone: RecognizerResult)
    requires text == "Bel mij op 06-12345678"
    requires phone == RecognizerResult("PHONE_NUMBER", 11, 22, 90)
    ensures AnonymizeText(text, Some([phone]), None) == Ok("Bel mij op [TELEFOONNUMMER]")
  {
    PhoneNumberSlices(text);
    DefaultTokens();
    OneSpanDefaults(text, phone, "Bel mij op ", "[TELEFOONNUMMER]", "");
    PhoneNumberOutput();
  }

  /**
   * Custom PERSON and LOCATION operators on the unit test's fixture, LOCATION at [23,32) with
   * score 0.9: the "A" survives and the "." is eaten, yet the custom tokens appear and the default
   * ones do not.
   */
  lemma CustomOperatorsFixtureScenario(text: string, person: RecognizerResult, loc: RecognizerResult,
                                       operators: map<string, OperatorValue>)
    requires text == "Jan de Vries woont in Amsterdam."
    requires person == RecognizerResult("PERSON", 0, 12, 85)
    requires loc == RecognizerResult("LOCATION", 23, 32, 90)
    requires operators == map["PERSON" := Config(ReplaceOperator("<PERSOON>")),
                               "LOCATION" := Config(ReplaceOperator("<PLAATS>"))]
    ensures AnonymizeText(text, Some([person, loc]), Some(operators)) == Ok("<PERSOON> woont in A<PLAATS>")
    ensures !Contains("<PERSOON> woont in A<PLAATS>", "[NAAM]")
    ensures !Contains("<PERSOON> woont in A<PLAATS>", "[LOCATIE]")
  {
    var ops := map["PERSON" := ReplaceOperator("<PERSOON>"), "LOCATION" := ReplaceOperator("<PLAATS>")];
    CustomOperatorsAccepted(text, person, loc, operators);
    assert Configs(operators) == ops;
    SentenceSlices(text);
    assert Token(ops, "PERSON") == "<PERSOON>" && Token(ops, "LOCATION") == "<PLAATS>";
    TwoSpans(text, person, loc, ops);
    CustomShiftedSentenceOutput();
    DefaultTokensAbsent("<PERSOON> woont in A<PLAATS>");
  }

  /**
   * Custom PERSON and LOCATION operators with LOCATION on "Amsterdam", [22,31), as in the shared
   * test fixture: their tokens appear, the default ones do not, and the "." is kept.
   */
  lemma CustomOperatorsScenario(text: string, person: RecognizerResult, loc: RecognizerResult,
                                operators: map<string, OperatorValue>)
    requires text == "Jan de Vries woont in Amsterdam."
    requires person == RecognizerResult("PERSON", 0, 12, 85)
    requires loc == RecognizerResult("LOCATION", 22, 31, 85)
    requires operators == map["PERSON" := Config(ReplaceOperator("<PERSOON>")),
                               "LOCATION" := Config(ReplaceOperator("<PLAATS>"))]
    ensures AnonymizeText(text, Some([person, loc]), Some(operators)) == Ok("<PERSOON> woont in <PLAATS>.")
    ensures !Contains("<PERSOON> woont in <PLAATS>.", "[NAAM]")
    ensures !Contains("<PERSOON> woont in <PLAATS>.", "[LOCATIE]")
  {
    var ops := map["PERSON" := ReplaceOperator("<PERSOON>"), "LOCATION" := ReplaceOperator("<PLAATS>")];
    CustomOperatorsAccepted(text, person, loc, operators);
    assert Configs(operators) == ops;
    SentenceSlices(text);
    assert Token(ops, "PERSON") == "<PERSOON>" && Token(ops, "LOCATION") == "<PLAATS>";
    TwoSpans(text, person, loc, ops);
    CustomSentenceOutput();
    DefaultTokensAbsent("<PERSOON> woont in <PLAATS>.");
  }

  /** The custom table passes every guard. */
  lemma CustomOperatorsAccepted(text: string, person: RecognizerResult, loc: RecognizerResult,
                                operators: map<string, OperatorValue>)
    requires text == "Jan de Vries woont in Amsterdam."
    requires person.entityType == "PERSON" && loc.entityType == "LOCATION"
    requires operators == map["PERSON" := Config(ReplaceOperator("<PERSOON>")),
                               "LOCATION" := Config(ReplaceOperator("<PLAATS>"))]
    ensures AllConfigs(operators)
    ensures AnonymizeText(text, Some([person, loc]), Some(operators)) == Ok(Replace(text, [person, loc], Configs(operators)))
  {
    assert EntityTypes([person, loc]) == {"PERSON", "LOCATION"} by {
      assert person in [person, loc] && loc in [person, loc];
    }
    assert MissingOperatorTypes([person, loc], operators) == {};
  }

  /** Neither default token occurs in a string without '['. */
  lemma DefaultTokensAbsent(out: string)
    requires out == "<PERSOON> woont in <PLAATS>." || out == "<PERSOON> woont in A<PLAATS>"
    ensures !Contains(out, "[NAAM]") && !Contains(out, "[LOCATIE]")
  {
    NotContainsWithoutFirstChar(out, "[NAAM]");
    NotContainsWithoutFirstChar(out, "[LOCATIE]");
  }
}

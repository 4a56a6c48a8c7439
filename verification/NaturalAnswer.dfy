/**
 Rewording a verified answer: a draft is used only inside the envelope of the verified facts,
 and otherwise the deterministic answer stands.
 */
module NaturalAnswer {
  import opened Options
  import opened Selections
  import AnswerContexts
  import AnswerService

  // One ranked member: the printed values of its dimensions.
  type RankingItem = seq<string>

  datatype Fact = Fact(factId: string, isRanking: bool, values: seq<RankingItem>)

  datatype FactSet = FactSet(factSetId: string, resultId: string, modelKey: string, facts: seq<Fact>)

  // The verified answer; scope and measure are the user-facing labels among its evidence, if they are text.
  datatype Answer = Answer(
    answer: string, summary: string, scope: Option<string>, measure: Option<string>, filterFields: seq<string>)

  datatype Error =
    | FactError(code: string)
    | NumericClaimOmitted
    | RankingItemOmitted
    | ScopeItemOmitted
    | MeasureLabelOmitted
    | TechnicalIdentityExposed
    | FilterSyntaxExposed
    | HorizonOmitted

  // The parts this module builds on: the validator of facts, and the normalised numbers of a text.
  datatype Rules = Rules(factErrors: (Answer, FactSet) -> seq<string>, numbers: string -> seq<string>)

  const HORIZON := "可观测到"

  predicate StandsAt(text: string, part: string, i: nat) {
    i + |part| <= |text| && text[i..i + |part|] == part
  }

  predicate Contains(text: string, part: string) {
    exists i :: 0 <= i <= |text| && StandsAt(text, part, i)
  }

  function Strip(s: string): string {
    if s == "" then ""
    else if AnswerService.IsSpace(s[0]) then Strip(s[1..])
    else if AnswerService.IsSpace(s[|s| - 1]) then Strip(s[..|s| - 1])
    else s
  }

  function Split(s: string, separator: char): seq<string> {
    if s == "" then [""]
    else if s[0] == separator then [""] + Split(s[1..], separator)
    else var rest := Split(s[1..], separator);
         if rest == [] then [[s[0]]] else [[s[0]] + rest[0]] + rest[1..]
  }

  function ScopeItems(scope: Option<string>): seq<string> {
    if scope.None? then [] else var parts := Split(scope.value, '，');
      seq(|parts|, i requires 0 <= i < |parts| => Strip(parts[i]))
  }

  // --- The envelope, clause by clause ---

  predicate NumbersKept(rules: Rules, text: string, fallback: Answer) {
    forall n :: n in rules.numbers(fallback.answer) ==> n in rules.numbers(text)
  }

  predicate ItemKept(text: string, item: RankingItem) {
    forall k :: 0 <= k < |item| ==> Contains(text, item[k])
  }

  predicate RankingKept(text: string, fact: Fact) {
    fact.isRanking ==> forall i :: 0 <= i < |fact.values| ==> ItemKept(text, fact.values[i])
  }

  predicate RankingsKept(text: string, facts: seq<Fact>) {
    forall i :: 0 <= i < |facts| ==> RankingKept(text, facts[i])
  }

  predicate ScopeKept(text: string, items: seq<string>) {
    forall i :: 0 <= i < |items| ==> items[i] == "" || Contains(text, items[i])
  }

  predicate MeasureKept(text: string, fallback: Answer) {
    fallback.measure.Some? && fallback.measure.value != "" ==> Contains(text, fallback.measure.value)
  }

  function Identities(facts: FactSet): seq<string> {
    [facts.modelKey, facts.factSetId, facts.resultId]
    + seq(|facts.facts|, i requires 0 <= i < |facts.facts| => facts.facts[i].factId)
  }

  predicate Exposed(text: string, tokens: seq<string>) {
    exists i :: 0 <= i < |tokens| && tokens[i] != "" && Contains(text, tokens[i])
  }

  function FilterTokens(fallback: Answer): seq<string> {
    seq(|fallback.filterFields|, i requires 0 <= i < |fallback.filterFields| => fallback.filterFields[i] + "=")
  }

  predicate HorizonKept(text: string, fallback: Answer) {
    Contains(fallback.answer, HORIZON) ==> Contains(text, HORIZON)
  }

  predicate Envelope(rules: Rules, answer: Answer, fallback: Answer, facts: FactSet) {
    && rules.factErrors(answer, facts) == []
    && NumbersKept(rules, answer.answer, fallback)
    && RankingsKept(answer.answer, facts.facts)
    && ScopeKept(answer.answer, ScopeItems(fallback.scope))
    && MeasureKept(answer.answer, fallback)
    && !Exposed(answer.answer, Identities(facts))
    && !Exposed(answer.answer, FilterTokens(fallback))
    && HorizonKept(answer.answer, fallback)
  }

  // --- The reported errors ---

  // First occurrences, in order.
  function Dedupe(errors: seq<Error>): seq<Error> {
    if errors == [] then []
    else
      var (earlier, last) := (Dedupe(errors[..|errors| - 1]), errors[|errors| - 1]);
      if last in earlier then earlier else earlier + [last]
  }

  function Flag(violated: bool, error: Error): seq<Error> {
    if violated then [error] else []
  }

  function FactErrors(codes: seq<string>): seq<Error> {
    seq(|codes|, i requires 0 <= i < |codes| => FactError(codes[i]))
  }

  // Every violated clause, in the order of the checks.
  function Violations(rules: Rules, answer: Answer, fallback: Answer, facts: FactSet): seq<Error> {
    FactErrors(rules.factErrors(answer, facts))
    + Flag(!NumbersKept(rules, answer.answer, fallback), NumericClaimOmitted)
    + Flag(!RankingsKept(answer.answer, facts.facts), RankingItemOmitted)
    + Flag(!ScopeKept(answer.answer, ScopeItems(fallback.scope)), ScopeItemOmitted)
    + Flag(!MeasureKept(answer.answer, fallback), MeasureLabelOmitted)
    + Flag(Exposed(answer.answer, Identities(facts)), TechnicalIdentityExposed)
    + Flag(Exposed(answer.answer, FilterTokens(fallback)), FilterSyntaxExposed)
    + Flag(!HorizonKept(answer.answer, fallback), HorizonOmitted)
  }

  lemma {:induction false} DedupeKeepsMembers(errors: seq<Error>)
    ensures forall e :: e in Dedupe(errors) <==> e in errors
  {
    if errors != [] {
      DedupeKeepsMembers(errors[..|errors| - 1]);
      assert errors == errors[..|errors| - 1] + [errors[|errors| - 1]];
    }
  }

  lemma DedupeAppend(errors: seq<Error>, error: Error)
    ensures Dedupe(errors + [error]) == if error in errors then Dedupe(errors) else Dedupe(errors) + [error]
  {
    DedupeKeepsMembers(errors);
    assert (errors + [error])[..|errors|] == errors;
  }

  // Two lists with the same first occurrences still have the same after one more check.
  lemma DedupeFlag(left: seq<Error>, right: seq<Error>, violated: bool, error: Error)
    requires Dedupe(left) == Dedupe(right)
    ensures Dedupe(left + Flag(violated, error)) == Dedupe(right + Flag(violated, error))
    ensures left + Flag(violated, error) == if violated then left + [error] else left
  {
    DedupeAppend(left, error);
    DedupeAppend(right, error);
    DedupeKeepsMembers(left);
    DedupeKeepsMembers(right);
    assert left + [] == left && right + [] == right;
  }

  // Reporting an error again changes nothing.
  lemma DedupeAgain(found: seq<Error>, base: seq<Error>, violated: bool, error: Error)
    requires Dedupe(found) == Dedupe(base + Flag(violated, error))
    ensures Dedupe(found + [error]) == Dedupe(base + [error])
  {
    DedupeFlag(found, base + Flag(violated, error), true, error);
    DedupeAppend(base + [error], error);
    assert base + [] == base;
  }

  /** No error is reported exactly when the whole envelope holds. */
  lemma NoErrorIffEnvelope(rules: Rules, answer: Answer, fallback: Answer, facts: FactSet)
    ensures Dedupe(Violations(rules, answer, fallback, facts)) == [] <==> Envelope(rules, answer, fallback, facts)
  {
    var raw := Violations(rules, answer, fallback, facts);
    DedupeKeepsMembers(raw);
    assert Dedupe(raw) == [] <==> raw == [] by {
      if raw != [] {
        assert raw[0] in raw;
        assert raw[0] in Dedupe(raw);
      }
    }
  }

  // --- What the parts of the envelope mean ---

  // The part occurs in the text.
  ghost predicate Occurs(text: string, part: string) {
    exists before, after :: text == before + part + after
  }

  lemma ContainsIff(text: string, part: string)
    ensures Contains(text, part) <==> Occurs(text, part)
  {
    if Contains(text, part) {
      var i :| 0 <= i <= |text| && StandsAt(text, part, i);
      assert text == text[..i] + part + text[i + |part|..];
    }
    if Occurs(text, part) {
      var before, after :| text == before + part + after;
      assert StandsAt(before + part + after, part, |before|);
    }
  }

  // The core stands in s at i, with nothing but spaces around it.
  predicate CoreAt(s: string, core: string, i: nat) {
    && StandsAt(s, core, i)
    && forall k :: 0 <= k < |s| && !(i <= k < i + |core|) ==> AnswerService.IsSpace(s[k])
  }

  // And it neither starts nor ends with one.
  ghost predicate Trimmed(s: string, core: string) {
    && (exists i :: 0 <= i <= |s| && CoreAt(s, core, i))
    && (core != "" ==> !AnswerService.IsSpace(core[0]) && !AnswerService.IsSpace(core[|core| - 1]))
  }

  lemma TrimmedAfterSpace(s: string, core: string)
    requires s != "" && AnswerService.IsSpace(s[0]) && Trimmed(s[1..], core)
    ensures Trimmed(s, core)
  {
    hide AnswerService.IsSpace;
    var rest := s[1..];
    var i :| 0 <= i <= |rest| && CoreAt(rest, core, i);
    assert s[i + 1..i + 1 + |core|] == rest[i..i + |core|];
    assert forall k :: 0 < k < |s| ==> s[k] == rest[k - 1];
    assert CoreAt(s, core, i + 1);
  }

  lemma TrimmedBeforeSpace(s: string, core: string)
    requires s != "" && AnswerService.IsSpace(s[|s| - 1]) && Trimmed(s[..|s| - 1], core)
    ensures Trimmed(s, core)
  {
    hide AnswerService.IsSpace;
    var rest := s[..|s| - 1];
    var i :| 0 <= i <= |rest| && CoreAt(rest, core, i);
    assert s[i..i + |core|] == rest[i..i + |core|];
    assert forall k :: 0 <= k < |s| - 1 ==> s[k] == rest[k];
    assert CoreAt(s, core, i);
  }

  lemma TrimmedAlready(s: string)
    requires s != "" ==> !AnswerService.IsSpace(s[0]) && !AnswerService.IsSpace(s[|s| - 1])
    ensures Trimmed(s, s)
  {
    assert CoreAt(s, s, 0);
  }

  lemma {:induction false} StripTrims(s: string)
    ensures Trimmed(s, Strip(s))
    decreases |s|
  {
    hide AnswerService.IsSpace, Trimmed;
    if s == "" {
      TrimmedAlready(s);
    } else if AnswerService.IsSpace(s[0]) {
      StripTrims(s[1..]);
      TrimmedAfterSpace(s, Strip(s[1..]));
    } else if AnswerService.IsSpace(s[|s| - 1]) {
      StripTrims(s[..|s| - 1]);
      TrimmedBeforeSpace(s, Strip(s[..|s| - 1]));
    } else {
      TrimmedAlready(s);
    }
  }

  // The parts of a text between its separators.
  predicate Parts(s: string, separator: char, parts: seq<string>) {
    && parts != [] && AnswerContexts.Join(parts, [separator]) == s
    && forall i :: 0 <= i < |parts| ==> separator !in parts[i]
  }

  lemma JoinLonger(c: char, parts: seq<string>, separator: string)
    requires parts != []
    ensures AnswerContexts.Join([[c] + parts[0]] + parts[1..], separator) == [c] + AnswerContexts.Join(parts, separator)
  {
    if |parts| == 1 {
      assert [[c] + parts[0]] + parts[1..] == [[c] + parts[0]];
    } else {
      AnswerContexts.JoinCons([c] + parts[0], parts[1..], separator);
      AnswerContexts.JoinCons(parts[0], parts[1..], separator);
      assert parts == [parts[0]] + parts[1..];
    }
  }

  lemma {:induction false} SplitIsParts(s: string, separator: char)
    ensures Parts(s, separator, Split(s, separator))
  {
    if s != "" {
      SplitIsParts(s[1..], separator);
      var rest := Split(s[1..], separator);
      var join := AnswerContexts.Join(rest, [separator]);
      if s[0] == separator {
        AnswerContexts.JoinCons("", rest, [separator]);
      } else {
        JoinLonger(s[0], rest, [separator]);
      }
      assert [s[0]] + s[1..] == s;
    }
  }

  // The scope's items: its parts between full-width commas, trimmed.
  ghost predicate ItemsOf(scope: string, items: seq<string>) {
    exists parts :: Parts(scope, '，', parts) && |items| == |parts|
      && forall i :: 0 <= i < |parts| ==> Trimmed(parts[i], items[i])
  }

  lemma ScopeItemsAre(scope: string)
    ensures ItemsOf(scope, ScopeItems(Some(scope)))
  {
    var parts := Split(scope, '，');
    SplitIsParts(scope, '，');
    forall i | 0 <= i < |parts| ensures Trimmed(parts[i], ScopeItems(Some(scope))[i]) {
      StripTrims(parts[i]);
    }
  }

  // Every printed value of every ranked member occurs.
  ghost predicate RankedValuesOccur(text: string, facts: seq<Fact>) {
    forall f, i, k :: 0 <= f < |facts| && facts[f].isRanking && 0 <= i < |facts[f].values| ==>
      (0 <= k < |facts[f].values[i]| ==> Occurs(text, facts[f].values[i][k]))
  }

  lemma RankingsKeptIff(text: string, facts: seq<Fact>)
    ensures RankingsKept(text, facts) <==> RankedValuesOccur(text, facts)
  {
    hide Contains, Occurs;
    forall part: string ensures Contains(text, part) <==> Occurs(text, part) {
      ContainsIff(text, part);
    }
    if RankingsKept(text, facts) {
      forall f, i, k | 0 <= f < |facts| && facts[f].isRanking && 0 <= i < |facts[f].values|
          && 0 <= k < |facts[f].values[i]|
        ensures Occurs(text, facts[f].values[i][k])
      {
        assert RankingKept(text, facts[f]) && ItemKept(text, facts[f].values[i]);
      }
    }
  }

  // The model's key, the ids of the fact set and the result, or the id of a fact.
  predicate InternalKey(key: string, facts: FactSet) {
    || key == facts.modelKey || key == facts.factSetId || key == facts.resultId
    || exists f :: 0 <= f < |facts.facts| && facts.facts[f].factId == key
  }

  lemma IdentitiesIff(key: string, facts: FactSet)
    ensures key in Identities(facts) <==> InternalKey(key, facts)
  {
    var ids := Identities(facts);
    assert ids[0] == facts.modelKey && ids[1] == facts.factSetId && ids[2] == facts.resultId;
    assert forall f :: 0 <= f < |facts.facts| ==> ids[f + 3] == facts.facts[f].factId;
    if key in ids {
      var k :| 0 <= k < |ids| && ids[k] == key;
      assert k >= 3 ==> facts.facts[k - 3].factId == key;
    }
  }

  lemma ExposedIff(text: string, tokens: seq<string>)
    ensures Exposed(text, tokens) <==> exists token :: token in tokens && token != "" && Occurs(text, token)
  {
    hide Contains, Occurs;
    forall token: string ensures Contains(text, token) <==> Occurs(text, token) {
      ContainsIff(text, token);
    }
    if Exposed(text, tokens) {
      var i :| 0 <= i < |tokens| && tokens[i] != "" && Contains(text, tokens[i]);
      assert tokens[i] in tokens;
    }
  }

  lemma NoKeyExposedIff(text: string, facts: FactSet)
    ensures !Exposed(text, Identities(facts)) <==>
              forall key :: key != "" && InternalKey(key, facts) ==> !Occurs(text, key)
  {
    ExposedIff(text, Identities(facts));
    hide Exposed, Identities, InternalKey, Occurs;
    forall key: string ensures key in Identities(facts) <==> InternalKey(key, facts) {
      IdentitiesIff(key, facts);
    }
  }

  lemma NoFilterExposedIff(text: string, fallback: Answer)
    ensures !Exposed(text, FilterTokens(fallback)) <==>
              forall field :: field in fallback.filterFields ==> !Occurs(text, field + "=")
  {
    var tokens, fields := FilterTokens(fallback), fallback.filterFields;
    ExposedIff(text, tokens);
    hide Exposed, Occurs;
    forall i | 0 <= i < |fields| ensures fields[i] + "=" in tokens {
      assert tokens[i] == fields[i] + "=";
    }
    forall token | token in tokens ensures exists field :: field in fields && token == field + "=" {
      var i :| 0 <= i < |tokens| && tokens[i] == token;
      assert fields[i] in fields;
    }
  }

  /** The envelope in plain words: no fact is contradicted; the fallback's numbers, every value of
      every ranked member, every item of the scope, the measure's label and the hint at the horizon
      are still there; no internal key and no filter expression is. */
  lemma EnvelopeIs(rules: Rules, answer: Answer, fallback: Answer, facts: FactSet)
    ensures Envelope(rules, answer, fallback, facts) <==>
              && rules.factErrors(answer, facts) == []
              && (forall n :: n in rules.numbers(fallback.answer) ==> n in rules.numbers(answer.answer))
              && RankedValuesOccur(answer.answer, facts.facts)
              && (forall item :: item in ScopeItems(fallback.scope) && item != "" ==> Occurs(answer.answer, item))
              && (forall m :: fallback.measure == Some(m) && m != "" ==> Occurs(answer.answer, m))
              && (forall key :: key != "" && InternalKey(key, facts) ==> !Occurs(answer.answer, key))
              && (forall field :: field in fallback.filterFields ==> !Occurs(answer.answer, field + "="))
              && (Occurs(fallback.answer, "可观测到") ==> Occurs(answer.answer, "可观测到"))
  {
    var text := answer.answer;
    RankingsKeptIff(text, facts.facts);
    NoKeyExposedIff(text, facts);
    NoFilterExposedIff(text, fallback);
    hide Contains, Occurs, RankingsKept, RankedValuesOccur, Exposed, InternalKey, ScopeItems, Identities, FilterTokens;
    forall part: string ensures Contains(text, part) <==> Occurs(text, part) {
      ContainsIff(text, part);
    }
    ContainsIff(fallback.answer, HORIZON);
  }

  // --- The reported errors, each once and in the order of its first report ---

  predicate Distinct(errors: seq<Error>) {
    forall i, j :: 0 <= i < j < |errors| ==> errors[i] != errors[j]
  }

  lemma {:induction false} DedupeIsDistinct(errors: seq<Error>)
    ensures Distinct(Dedupe(errors))
    decreases |errors|
  {
    if errors != [] {
      DedupeIsDistinct(errors[..|errors| - 1]);
    }
  }

  // What was first reported early stays in front of what was first reported later.
  lemma {:induction false} DedupeKeepsOrder(errors: seq<Error>, k: nat)
    requires k <= |errors|
    ensures Dedupe(errors[..k]) <= Dedupe(errors)
    decreases |errors|
  {
    if k == |errors| {
      assert errors[..k] == errors;
    } else {
      var n := |errors| - 1;
      DedupeKeepsOrder(errors[..n], k);
      assert errors[..n][..k] == errors[..k];
    }
  }

  lemma FactErrorsAre(codes: seq<string>, e: Error)
    ensures e in FactErrors(codes) <==> e.FactError? && e.code in codes
  {
    if e.FactError? && e.code in codes {
      var i :| 0 <= i < |codes| && codes[i] == e.code;
      assert FactErrors(codes)[i] == e;
    }
  }

  lemma InFlag(e: Error, violated: bool, error: Error)
    ensures e in Flag(violated, error) <==> violated && e == error
  {
  }

  // The clause an error stands for is violated.
  predicate Violated(e: Error, rules: Rules, answer: Answer, fallback: Answer, facts: FactSet) {
    match e
    case FactError(code) => code in rules.factErrors(answer, facts)
    case NumericClaimOmitted => !NumbersKept(rules, answer.answer, fallback)
    case RankingItemOmitted => !RankingsKept(answer.answer, facts.facts)
    case ScopeItemOmitted => !ScopeKept(answer.answer, ScopeItems(fallback.scope))
    case MeasureLabelOmitted => !MeasureKept(answer.answer, fallback)
    case TechnicalIdentityExposed => Exposed(answer.answer, Identities(facts))
    case FilterSyntaxExposed => Exposed(answer.answer, FilterTokens(fallback))
    case HorizonOmitted => !HorizonKept(answer.answer, fallback)
  }

  lemma ViolationsAre(rules: Rules, answer: Answer, fallback: Answer, facts: FactSet, e: Error)
    ensures e in Violations(rules, answer, fallback, facts) <==> Violated(e, rules, answer, fallback, facts)
  {
    FactErrorsAre(rules.factErrors(answer, facts), e);
    InFlag(e, !NumbersKept(rules, answer.answer, fallback), NumericClaimOmitted);
    InFlag(e, !RankingsKept(answer.answer, facts.facts), RankingItemOmitted);
    InFlag(e, !ScopeKept(answer.answer, ScopeItems(fallback.scope)), ScopeItemOmitted);
    InFlag(e, !MeasureKept(answer.answer, fallback), MeasureLabelOmitted);
    InFlag(e, Exposed(answer.answer, Identities(facts)), TechnicalIdentityExposed);
    InFlag(e, Exposed(answer.answer, FilterTokens(fallback)), FilterSyntaxExposed);
    InFlag(e, !HorizonKept(answer.answer, fallback), HorizonOmitted);
    hide Flag, FactErrors, NumbersKept, RankingsKept, ScopeKept, MeasureKept, Exposed, HorizonKept;
    hide ScopeItems, Identities, FilterTokens;
  }

  lemma ReportedAre(rules: Rules, answer: Answer, fallback: Answer, facts: FactSet)
    ensures
      var errors := Dedupe(Violations(rules, answer, fallback, facts));
      Distinct(errors) && forall e :: e in errors <==> Violated(e, rules, answer, fallback, facts)
  {
    var raw := Violations(rules, answer, fallback, facts);
    DedupeIsDistinct(raw);
    DedupeKeepsMembers(raw);
    hide Violated, Violations, Dedupe;
    forall e ensures e in raw <==> Violated(e, rules, answer, fallback, facts) {
      ViolationsAre(rules, answer, fallback, facts, e);
    }
  }

  // --- Validation, with its early exits ---

  method CheckNumbers(rules: Rules, text: string, fallback: Answer, found: seq<Error>) returns (errors: seq<Error>)
    ensures errors == found + Flag(!NumbersKept(rules, text, fallback), NumericClaimOmitted)
  {
    errors := found;
    var tokens := rules.numbers(fallback.answer);
    for i := 0 to |tokens|
      invariant errors == found && forall k :: 0 <= k < i ==> tokens[k] in rules.numbers(text)
    {
      if tokens[i] !in rules.numbers(text) {
        errors := errors + [NumericClaimOmitted];
        break;
      }
    }
  }

  // The early exit leaves the innermost loop only, so an omission can be reported many times.
  method CheckRankings(text: string, facts: seq<Fact>, found: seq<Error>) returns (errors: seq<Error>)
    ensures Dedupe(errors) == Dedupe(found + Flag(!RankingsKept(text, facts), RankingItemOmitted))
  {
    hide Dedupe, ItemKept;
    errors := found;
    assert found + [] == found;
    for f := 0 to |facts|
      invariant Dedupe(errors) == Dedupe(found + Flag(!RankingsKept(text, facts[..f]), RankingItemOmitted))
    {
      ghost var omitted := !RankingsKept(text, facts[..f]);
      RankingsStep(text, facts, f);
      if facts[f].isRanking {
        var values := facts[f].values;
        for i := 0 to |values|
          invariant Dedupe(errors) ==
                    Dedupe(found + Flag(omitted || exists k :: 0 <= k < i && !ItemKept(text, values[k]),
                                        RankingItemOmitted))
        {
          errors := CheckItem(text, values[i], errors, found,
                              omitted || exists k :: 0 <= k < i && !ItemKept(text, values[k]));
        }
      }
    }
    assert facts[..|facts|] == facts;
  }

  method CheckItem(text: string, item: RankingItem, before: seq<Error>, ghost found: seq<Error>, ghost omitted: bool)
    returns (errors: seq<Error>)
    requires Dedupe(before) == Dedupe(found + Flag(omitted, RankingItemOmitted))
    ensures Dedupe(errors) == Dedupe(found + Flag(omitted || !ItemKept(text, item), RankingItemOmitted))
  {
    errors := before;
    for k := 0 to |item|
      invariant errors == before && forall m :: 0 <= m < k ==> Contains(text, item[m])
    {
      if !Contains(text, item[k]) {
        errors := errors + [RankingItemOmitted];
        DedupeAgain(before, found, omitted, RankingItemOmitted);
        break;
      }
    }
  }

  lemma RankingsStep(text: string, facts: seq<Fact>, f: nat)
    requires f < |facts|
    ensures RankingsKept(text, facts[..f + 1]) <==> RankingsKept(text, facts[..f]) && RankingKept(text, facts[f])
  {
    var before, after := facts[..f], facts[..f + 1];
    assert after[f] == facts[f];
    assert forall i :: 0 <= i < f ==> after[i] == before[i];
  }

  method CheckScope(text: string, items: seq<string>, found: seq<Error>) returns (errors: seq<Error>)
    ensures errors == found + Flag(!ScopeKept(text, items), ScopeItemOmitted)
  {
    errors := found;
    for i := 0 to |items|
      invariant errors == found && forall k :: 0 <= k < i ==> items[k] == "" || Contains(text, items[k])
    {
      if items[i] != "" && !Contains(text, items[i]) {
        errors := errors + [ScopeItemOmitted];
        break;
      }
    }
  }

  /** The reported errors are exactly the violated clauses of the envelope, each once. */
  method Validate(rules: Rules, answer: Answer, fallback: Answer, facts: FactSet) returns (errors: seq<Error>)
    ensures errors == Dedupe(Violations(rules, answer, fallback, facts))
    ensures errors == [] <==> Envelope(rules, answer, fallback, facts)
    ensures Distinct(errors)
    ensures forall e :: e in errors <==> Violated(e, rules, answer, fallback, facts)
  {
    hide Dedupe, Flag, Exposed, ScopeKept, RankingsKept, NumbersKept, ScopeItems, Identities, FilterTokens;
    hide Contains, Envelope, FactErrors, Violated, Distinct;
    var text := answer.answer;
    errors := FactErrors(rules.factErrors(answer, facts));
    errors := CheckNumbers(rules, text, fallback, errors);
    ghost var owed := errors;
    errors := CheckRankings(text, facts.facts, errors);
    owed := owed + Flag(!RankingsKept(text, facts.facts), RankingItemOmitted);
    DedupeFlag(errors, owed, !ScopeKept(text, ScopeItems(fallback.scope)), ScopeItemOmitted);
    errors := CheckScope(text, ScopeItems(fallback.scope), errors);
    owed := owed + Flag(!ScopeKept(text, ScopeItems(fallback.scope)), ScopeItemOmitted);
    DedupeFlag(errors, owed, !MeasureKept(text, fallback), MeasureLabelOmitted);
    if fallback.measure.Some? && fallback.measure.value != "" && !Contains(text, fallback.measure.value) {
      errors := errors + [MeasureLabelOmitted];
    }
    owed := owed + Flag(!MeasureKept(text, fallback), MeasureLabelOmitted);
    DedupeFlag(errors, owed, Exposed(text, Identities(facts)), TechnicalIdentityExposed);
    if Exposed(text, Identities(facts)) {
      errors := errors + [TechnicalIdentityExposed];
    }
    owed := owed + Flag(Exposed(text, Identities(facts)), TechnicalIdentityExposed);
    DedupeFlag(errors, owed, Exposed(text, FilterTokens(fallback)), FilterSyntaxExposed);
    if Exposed(text, FilterTokens(fallback)) {
      errors := errors + [FilterSyntaxExposed];
    }
    owed := owed + Flag(Exposed(text, FilterTokens(fallback)), FilterSyntaxExposed);
    DedupeFlag(errors, owed, !HorizonKept(text, fallback), HorizonOmitted);
    if Contains(fallback.answer, HORIZON) && !Contains(text, HORIZON) {
      errors := errors + [HorizonOmitted];
    }
    owed := owed + Flag(!HorizonKept(text, fallback), HorizonOmitted);
    errors := Dedupe(errors);
    assert owed == Violations(rules, answer, fallback, facts);
    ReportedAre(rules, answer, fallback, facts);
    NoErrorIffEnvelope(rules, answer, fallback, facts);
  }

  // --- Composing ---

  // The structured reply is never empty and never long.
  type DraftText = s: string | 1 <= |s| <= 2000 witness "."

  datatype Reply = Draft(text: DraftText) | NothingStructured | Raised(error: string)

  // One call, as far as calls differ: the payload is the same each time, a repair adds the errors.
  type Prompt = seq<Error>

  type Provider = seq<Prompt> -> Reply

  const PLAIN: Prompt := []

  datatype Outcome = Composed(answer: Answer) | Propagated(error: string)

  function Reworded(fallback: Answer, text: string): Answer {
    fallback.(answer := text, summary := text)
  }

  // What every accepted text must contain, and what it must not.
  predicate Required(fallback: Answer, facts: FactSet, text: string) {
    || (exists f, i, k :: 0 <= f < |facts.facts| && facts.facts[f].isRanking && 0 <= i < |facts.facts[f].values|
                          && 0 <= k < |facts.facts[f].values[i]| && facts.facts[f].values[i][k] == text)
    || (text != "" && text in ScopeItems(fallback.scope))
    || (text != "" && fallback.measure == Some(text))
    || (Contains(fallback.answer, HORIZON) && text == HORIZON)
  }

  predicate Forbidden(fallback: Answer, facts: FactSet, text: string) {
    text != "" && (text in Identities(facts) || text in FilterTokens(fallback))
  }

  ghost predicate Contradictory(fallback: Answer, facts: FactSet) {
    exists required, forbidden ::
      Required(fallback, facts, required) && Forbidden(fallback, facts, forbidden) && Contains(required, forbidden)
  }

  lemma ContainsTransitive(text: string, part: string, inner: string)
    requires Contains(text, part) && Contains(part, inner)
    ensures Contains(text, inner)
  {
    var i :| 0 <= i <= |text| && StandsAt(text, part, i);
    var j :| 0 <= j <= |part| && StandsAt(part, inner, j);
    var whole, at := text[i..i + |part|], i + j;
    assert whole[j..j + |inner|] == inner;
    assert forall k :: 0 <= k < |inner| ==> text[at + k] == whole[j + k] == inner[k];
    assert StandsAt(text, inner, at);
  }

  /** With contradictory demands no text at all is inside the envelope. */
  lemma NothingFits(rules: Rules, answer: Answer, fallback: Answer, facts: FactSet)
    requires Contradictory(fallback, facts)
    ensures !Envelope(rules, answer, fallback, facts)
  {
    var required, forbidden :|
      Required(fallback, facts, required) && Forbidden(fallback, facts, forbidden) && Contains(required, forbidden);
    if Envelope(rules, answer, fallback, facts) {
      RequiredIsContained(rules, answer, fallback, facts, required);
      ContainsTransitive(answer.answer, required, forbidden);
      assert false;
    }
  }

  lemma RequiredIsContained(rules: Rules, answer: Answer, fallback: Answer, facts: FactSet, text: string)
    requires Envelope(rules, answer, fallback, facts) && Required(fallback, facts, text)
    ensures Contains(answer.answer, text)
  {
    if f, i, k :|
      0 <= f < |facts.facts| && facts.facts[f].isRanking && 0 <= i < |facts.facts[f].values|
      && 0 <= k < |facts.facts[f].values[i]| && facts.facts[f].values[i][k] == text
    {
      assert RankingKept(answer.answer, facts.facts[f]);
      assert ItemKept(answer.answer, facts.facts[f].values[i]);
    }
  }

  class NaturalAnswerComposer {
    const provider: Provider
    const rules: Rules
    const maxRepairs: AnswerService.Quota

    constructor (provider: Provider, rules: Rules, maxRepairs: int)
      ensures this.provider == provider && this.rules == rules
      ensures this.maxRepairs == if maxRepairs <= 0 then 0 else 1
    {
      this.provider := provider;
      this.rules := rules;
      var atMostOne := if maxRepairs < 1 then maxRepairs else 1;
      this.maxRepairs := if atMostOne > 0 then atMostOne else 0;
    }

    /** For every provider: which calls are made, and what comes back. */
    method Compose(fallback: Answer, facts: FactSet) returns (outcome: Outcome, calls: seq<Prompt>)
      // one call, and a second one only for a draft outside the envelope
      ensures
        var first := provider([PLAIN]);
        calls ==
          if maxRepairs == 1 && first.Draft? && !Envelope(rules, Reworded(fallback, first.text), fallback, facts)
          then [PLAIN, Dedupe(Violations(rules, Reworded(fallback, first.text), fallback, facts))]
          else [PLAIN]
      ensures |calls| <= 1 + maxRepairs
      // the last reply decides: an error goes to the caller, a draft is used inside the envelope alone
      ensures outcome ==
              match provider(calls)
              case Raised(error) => Propagated(error)
              case NothingStructured => Propagated("natural_answer_response_missing")
              case Draft(text) =>
                var answer := Reworded(fallback, text);
                Composed(if Envelope(rules, answer, fallback, facts) then answer else fallback)
    {
      calls := [PLAIN];
      var reply := provider(calls);
      if !reply.Draft? {
        return Propagated(if reply.Raised? then reply.error else "natural_answer_response_missing"), calls;
      }
      var answer := Reworded(fallback, reply.text);
      var errors := Validate(rules, answer, fallback, facts);
      if errors != [] && maxRepairs > 0 {
        calls := calls + [errors];
        reply := provider(calls);
        if !reply.Draft? {
          return Propagated(if reply.Raised? then reply.error else "natural_answer_response_missing"), calls;
        }
        answer := Reworded(fallback, reply.text);
        errors := Validate(rules, answer, fallback, facts);
      }
      outcome := Composed(if errors != [] then fallback else answer);
    }

    /** A required text that contains a forbidden one leaves only the fallback, whatever is drafted. */
    method ComposeInVain(fallback: Answer, facts: FactSet) returns (outcome: Outcome)
      requires Contradictory(fallback, facts)
      ensures outcome.Composed? ==> outcome.answer == fallback
    {
      var calls;
      outcome, calls := Compose(fallback, facts);
      match provider(calls) {
        case Draft(text) => NothingFits(rules, Reworded(fallback, text), fallback, facts);
        case _ =>
      }
    }
  }
}

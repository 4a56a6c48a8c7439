/**
 Generating an answer with an untrusted provider: entry checks, one request, and at most one
 repair, which a badly formed reply and a reply that fails validation share.
 */
module AnswerService {
  import opened Options
  import opened AnswerContexts

  datatype AnswerSpec = AnswerSpec(answer: string, summary: string, modelKey: string, sourceMode: string)

  datatype Intent = DataQuestion | OtherIntent

  datatype QueryPlan = QueryPlan(modelKey: string, topN: Option<int>)

  datatype QueryResult = QueryResult(
    resultId: string, modelKey: string, columns: seq<string>, rows: seq<Cells>,
    rowCount: int, truncated: bool, sourceMode: string, failed: bool)

  datatype Request = Request(
    userInput: string, intent: Intent, plan: QueryPlan, result: QueryResult, schemaKey: string)

  // What one call sends: the context, and for a repair what was wrong before.
  datatype Prompt = Prompt(context: AnswerContext, repairCode: Option<string>, illegalFields: string)

  // What one call comes back with. Cancelled stands for the errors no handler here catches.
  datatype Reply =
    | Structured(answer: AnswerSpec)
    | NothingStructured
    | FormatError(code: Option<string>)
    | ProviderError
    | OtherError
    | Cancelled

  // A provider may answer with anything, depending on all it was asked so far.
  type Provider = seq<Prompt> -> Reply

  datatype Validation = Validation(isValid: bool, illegalFields: string)

  // The strict validation of an answer against its query result and the flag of its context.
  type Validator = (AnswerSpec, QueryResult, bool) -> Validation

  datatype Failure =
    | UnsupportedIntent
    | ResultHasError
    | PlanKeyMismatch
    | ResultKeyMismatch
    | IllegalSourceMode
    | BlankInput
    | NotRepairable
    | RepairDisabled
    | ProviderFailed
    | Unexpected
    | InvalidAfterRepair

  datatype Outcome = Returned(answer: AnswerSpec) | Failed(failure: Failure) | ContextRefused | WasCancelled

  const FORMAT_CODES := {"invalid_content_json", "output_schema_invalid"}

  predicate IsSpace(c: char) {
    || '\t' <= c <= '\r' || '\U{1C}' <= c <= '\U{1F}' || c in {' ', '\U{85}', '\U{A0}', '\U{1680}'}
    || '\U{2000}' <= c <= '\U{200A}' || c in {'\U{2028}', '\U{2029}', '\U{202F}', '\U{205F}', '\U{3000}'}
  }

  predicate Blank(s: string) {
    forall i :: 0 <= i < |s| ==> IsSpace(s[i])
  }

  // Whether a request may reach the provider at all.
  predicate Enters(request: Request) {
    && request.intent.DataQuestion? && !request.result.failed
    && request.plan.modelKey == request.result.modelKey == request.schemaKey
    && request.result.sourceMode in {"mock", "real"}
    && !Blank(request.userInput)
  }

  // The entry check a failure names is one the request does not pass.
  predicate Refuses(request: Request, failure: Failure) {
    match failure
    case UnsupportedIntent => !request.intent.DataQuestion?
    case ResultHasError => request.result.failed
    case PlanKeyMismatch => request.plan.modelKey != request.schemaKey
    case ResultKeyMismatch => request.result.modelKey != request.schemaKey
    case IllegalSourceMode => request.result.sourceMode !in {"mock", "real"}
    case BlankInput => Blank(request.userInput)
    case _ => false
  }

  function SourceOf(request: Request): Source {
    Source(request.userInput, request.result.resultId, request.schemaKey, request.result.columns,
           request.result.rowCount, request.result.truncated, request.result.sourceMode, request.plan.topN)
  }

  // The flag the context of a request must carry.
  predicate InputTruncated(result: QueryResult) {
    |result.rows| > MAX_ROWS_IN_CONTEXT || SomeCellCut(Shown(result.rows))
  }

  function ContextOf(request: Request): AnswerContext {
    AnswerContext(SourceOf(request), FitRows(request.result.rows), InputTruncated(request.result))
  }

  // The context tells of this request, and its rows are the fitted ones.
  ghost predicate TellsOf(context: AnswerContext, request: Request) {
    && context.source.userInput == request.userInput
    && context.source.resultId == request.result.resultId
    && context.source.modelKey == request.schemaKey
    && context.source.columns == request.result.columns
    && context.source.rowCount == request.result.rowCount
    && context.source.truncated == request.result.truncated
    && context.source.sourceMode == request.result.sourceMode
    && context.source.topN == request.plan.topN
    && context.rows == FitRows(request.result.rows)
    && (context.inputTruncated <==> Cut(request.result.rows))
  }

  // More than 20 rows, or a text of more than 100 characters in them.
  ghost predicate Cut(rows: seq<Cells>) {
    || |rows| > 20
    || exists i, j :: 0 <= i < |rows| && 0 <= j < |rows[i]| && rows[i][j].Text? && |rows[i][j].text| > 100
  }

  lemma ContextTells(request: Request)
    ensures TellsOf(ContextOf(request), request)
    ensures InputTruncated(request.result) <==> Cut(request.result.rows)
  {
    FlagIs(request.result.rows);
  }

  // The quota of repairs.
  type Quota = n: int | 0 <= n <= 1

  class DeepSeekAnswerService {
    const provider: Provider
    const validator: Validator
    const maxRepairs: Quota

    // The number of repairs is 0 or 1, whatever was asked for.
    constructor (provider: Provider, validator: Validator, maxRepairs: int)
      ensures this.provider == provider && this.validator == validator
      ensures this.maxRepairs == if maxRepairs <= 0 then 0 else 1
    {
      this.provider := provider;
      this.validator := validator;
      var atMostOne := if maxRepairs < 1 then maxRepairs else 1;
      this.maxRepairs := if atMostOne > 0 then atMostOne else 0;
    }

    function Check(answer: AnswerSpec, result: QueryResult): Validation {
      validator(answer, result, InputTruncated(result))
    }

    predicate Accepted(reply: Reply, result: QueryResult) {
      reply.Structured? && Check(reply.answer, result).isValid
    }

    // A first reply that a second call may mend.
    predicate Mendable(reply: Reply, result: QueryResult) {
      || (reply.FormatError? && reply.code.Some?
          && (reply.code.value == "invalid_content_json" || reply.code.value == "output_schema_invalid"))
      || (reply.Structured? && !Check(reply.answer, result).isValid)
    }

    function FirstPrompt(request: Request): Prompt {
      Prompt(ContextOf(request), None, "")
    }

    function RepairPrompt(request: Request, reply: Reply): Prompt {
      if reply.Structured?
      then Prompt(ContextOf(request), Some("answer_validation_failed"),
                  Check(reply.answer, request.result).illegalFields)
      else Prompt(ContextOf(request), Some("invalid_content_json_or_schema"), "")
    }

    /** For every provider: which calls are made, and when an answer comes back. */
    method Generate(request: Request) returns (outcome: Outcome, calls: seq<Prompt>)
      // nothing is asked before the entry checks pass
      ensures !Enters(request) ==> calls == [] && outcome.Failed? && Refuses(request, outcome.failure)
      ensures Enters(request) && !Admissible(SourceOf(request)) ==> outcome.ContextRefused? && calls == []
      // otherwise one request, and a second one only to mend the first
      ensures Enters(request) && Admissible(SourceOf(request)) ==>
                var first := FirstPrompt(request);
                var reply := provider([first]);
                calls == if maxRepairs == 1 && Mendable(reply, request.result)
                         then [first, RepairPrompt(request, reply)] else [first]
      ensures |calls| <= 1 + maxRepairs
      // every call carries the request's own bounded context
      ensures forall k :: 0 <= k < |calls| ==> TellsOf(calls[k].context, request)
      ensures outcome.ContextRefused? <==>
                && Enters(request)
                && (request.result.resultId == "" || request.schemaKey == ""
                    || (request.plan.topN.Some? && request.plan.topN.value < 1))
      // the last reply decides: an answer comes back exactly when it passes strict validation
      ensures outcome.Returned? <==> calls != [] && Accepted(provider(calls), request.result)
      ensures outcome.Returned? ==> provider(calls) == Structured(outcome.answer)
      ensures outcome.WasCancelled? <==> calls != [] && provider(calls).Cancelled?
      ensures outcome == Failed(ProviderFailed) <==> calls != [] && provider(calls).ProviderError?
      ensures outcome == Failed(RepairDisabled) <==>
                calls != [] && maxRepairs == 0 && Mendable(provider(calls), request.result)
    {
      ContextTells(request);
      assert request.userInput == "" ==> Blank(request.userInput);
      hide TellsOf;
      calls := [];
      if !request.intent.DataQuestion? {
        return Failed(UnsupportedIntent), calls;
      }
      if request.result.failed {
        return Failed(ResultHasError), calls;
      }
      if request.plan.modelKey != request.schemaKey {
        return Failed(PlanKeyMismatch), calls;
      }
      if request.result.modelKey != request.schemaKey {
        return Failed(ResultKeyMismatch), calls;
      }
      if request.result.sourceMode !in {"mock", "real"} {
        return Failed(IllegalSourceMode), calls;
      }
      if Blank(request.userInput) {
        return Failed(BlankInput), calls;
      }
      var built := Build(SourceOf(request), request.result.rows);
      if built.Invalid? {
        return ContextRefused, calls;
      }
      var context := built.context;
      var repairUsed := false;
      var answer: AnswerSpec;

      calls := calls + [Prompt(context, None, "")];
      ghost var first := provider(calls);
      assert calls == [FirstPrompt(request)];
      match provider(calls) {
        case Structured(a) =>
          answer := a;
        case FormatError(code) =>
          if code.None? || code.value !in FORMAT_CODES {
            return Failed(NotRepairable), calls;
          }
          if maxRepairs < 1 {
            return Failed(RepairDisabled), calls;
          }
          repairUsed := true;
          calls := calls + [Prompt(context, Some("invalid_content_json_or_schema"), "")];
          assert calls == [FirstPrompt(request), RepairPrompt(request, first)];
          match provider(calls) {
            case Structured(a) => answer := a;
            case FormatError(_) => return Failed(InvalidAfterRepair), calls;
            case ProviderError => return Failed(ProviderFailed), calls;
            case Cancelled => return WasCancelled, calls;
            case _ => return Failed(Unexpected), calls;
          }
        case ProviderError => return Failed(ProviderFailed), calls;
        case Cancelled => return WasCancelled, calls;
        case _ => return Failed(Unexpected), calls;
      }

      var validation := validator(answer, request.result, context.inputTruncated);
      if !validation.isValid {
        if repairUsed {
          return Failed(InvalidAfterRepair), calls;
        }
        if maxRepairs < 1 {
          return Failed(RepairDisabled), calls;
        }
        repairUsed := true;
        calls := calls + [Prompt(context, Some("answer_validation_failed"), validation.illegalFields)];
        assert calls == [FirstPrompt(request), RepairPrompt(request, first)];
        match provider(calls) {
          case Structured(a) => answer := a;
          case FormatError(_) => return Failed(InvalidAfterRepair), calls;
          case ProviderError => return Failed(ProviderFailed), calls;
          case Cancelled => return WasCancelled, calls;
          case _ => return Failed(Unexpected), calls;
        }
        validation := validator(answer, request.result, context.inputTruncated);
        if !validation.isValid {
          return Failed(InvalidAfterRepair), calls;
        }
      }
      outcome := Returned(answer);
    }
  }
}

/** `decide`: two guardrails in code around a verdict that the language model is free to choose. */
module LlmDecision {
  import opened JsonValues

  datatype Decision = AutoApprove | HoldForReview | FlagInvoice | RejectInvoice

  datatype DecidedBy = DuplicateGuardrail | NoPolicyGuardrail | Model

  datatype Evaluation = Evaluation(decision: Decision, confidence: real, decidedBy: DecidedBy)

  /** What the model call yields: an exception, something that fails validation, or a verdict. */
  datatype Answer = Unavailable | Unparseable | Verdict(decision: Decision, confidence: real)

  /** `retrieved` is the number of policy chunks found for the vendor. */
  function Decide(isDuplicate: bool, retrieved: nat, answer: Answer): Result<Evaluation> {
    if isDuplicate then Ok(Evaluation(RejectInvoice, 0.99, DuplicateGuardrail))
    else if retrieved == 0 then Ok(Evaluation(HoldForReview, 0.5, NoPolicyGuardrail))
    else
      match answer
      case Unavailable => Raised
      case Unparseable => Ok(Evaluation(HoldForReview, 0.3, Model))
      case Verdict(decision, confidence) => Ok(Evaluation(decision, confidence, Model))
  }
}

// The submission handlers as programs over a status store (api/send.rs, api/send_bulk.rs).
//
// One `Handler` is one message on its way through `send_mail`, or through the two phases of
// `send_bulk`. It is a small machine: each step makes one decision or one call to the store. What
// the outside world decides (validation, mail building, the SMTP server) is the `Choice` of the step.
module Handlers {
  import opened Prelude
  import opened Statuses
  import RateLimiters

  datatype AppError =
    | BadRequestError | UnauthorizedError | ForbiddenError | PayloadTooLargeError | UnsupportedMediaTypeError
    | RateLimitedError(tier: RateLimiters.Tier) | ValidationError | SmtpUnavailableError | SmtpRejectedError
    | FeatureDisabledError | InternalFailure

  // error.rs, `AppError::error_code`: what a single-send response carries.
  function ErrorCodeOf(e: AppError): ErrorCode {
    match e
    case BadRequestError => BadRequest
    case UnauthorizedError => Unauthorized
    case ForbiddenError => Forbidden
    case PayloadTooLargeError => PayloadTooLarge
    case UnsupportedMediaTypeError => UnsupportedMediaType
    case RateLimitedError(_) => RateLimitExceeded
    case ValidationError => ValidationFailed
    case SmtpUnavailableError => SmtpUnavailable
    case SmtpRejectedError => SmtpRejectedMessage
    case FeatureDisabledError => FeatureDisabled
    case InternalFailure => InternalError
  }

  // send.rs, `store_code_from_app_error`.
  function StoreCode(e: AppError): Option<ErrorCode> {
    if ErrorCodeOf(e).InternalError? then None else Some(ErrorCodeOf(e))
  }

  // send_bulk.rs, `apperr_to_code`: everything it does not name is an internal error.
  function BulkCode(e: AppError): ErrorCode {
    match e
    case ValidationError => ValidationFailed
    case BadRequestError => BadRequest
    case PayloadTooLargeError => PayloadTooLarge
    case UnsupportedMediaTypeError => UnsupportedMediaType
    case RateLimitedError(_) => RateLimitExceeded
    case ForbiddenError => Forbidden
    case SmtpUnavailableError => SmtpUnavailable
    case _ => InternalError
  }

  datatype Kind = Single | Bulk

  // Where a message was turned away.
  datatype Stage = Admission | Validation | Building

  // How a message ends: turned away before SMTP, answered by SMTP.
  datatype Ending = TurnedAway(stage: Stage, error: AppError) | Delivered | Undelivered(error: AppError)

  // Errors each stage can produce.
  predicate Possible(kind: Kind, ending: Ending) {
    match ending
    case TurnedAway(Admission, e) =>
      || e.RateLimitedError?
      || (kind.Single? && (e.UnsupportedMediaTypeError? || e.PayloadTooLargeError? || e.BadRequestError?))
    case TurnedAway(Validation, e) => e.ValidationError? || e.FeatureDisabledError?
    case TurnedAway(Building, e) => e.InternalFailure?
    case Delivered => true
    case Undelivered(e) => e.SmtpUnavailableError? || e.SmtpRejectedError?
  }

  function LimitMessage(tier: RateLimiters.Tier): string {
    match tier
    case GlobalTier => "Global rate limit exceeded."
    case IpTier => "IP rate limit exceeded."
    case KeyTier => "Per-key rate limit exceeded."
  }

  // The last update a handler makes.
  function LastUpdate(kind: Kind, ending: Ending): Update {
    match ending
    case TurnedAway(Admission, e) =>
      if kind.Single? then Update(Rejected, StoreCode(e), None)
      else Update(Rejected, Some(RateLimitExceeded), if e.RateLimitedError? then Some(LimitMessage(e.tier)) else None)
    case TurnedAway(Validation, e) =>
      if kind.Single? then Update(Rejected, Some(ValidationFailed), None)
      else Update(Rejected, Some(BulkCode(e)), Some("Request rejected during validation."))
    case TurnedAway(Building, e) => Update(Rejected, Some(InternalError), Some("Failed to build mail message."))
    case Delivered =>
      Update(SmtpAccepted, None,
             Some(if kind.Single? then "The message was accepted by the configured SMTP server."
                  else "Accepted by SMTP server."))
    case Undelivered(e) =>
      if kind.Single?
      then Update(SmtpFailed, Some(if e.SmtpRejectedError? then SmtpRejectedMessage else SmtpUnavailable), None)
      else Update(SmtpFailed, Some(SmtpUnavailable), Some("SMTP server unavailable."))
  }

  function StartUpdate(kind: Kind): Update {
    Update(SubmissionStarted, None, if kind.Single? then None else Some("Submitting to SMTP."))
  }

  // What the client is told.
  datatype Reply = Accepted | Refused(code: ErrorCode)

  function ReplyOf(kind: Kind, ending: Ending): Reply {
    match ending
    case TurnedAway(stage, e) =>
      if kind.Single? then Refused(ErrorCodeOf(e))
      else Refused(if stage.Admission? then RateLimitExceeded else if stage.Building? then InternalError
                   else BulkCode(e))
    case Delivered => Accepted
    case Undelivered(e) => Refused(if kind.Single? then ErrorCodeOf(e) else SmtpUnavailable)
  }

  // The stored outcome says what the client was told, except that a single send with a disabled
  // feature stores validation_failed and replies feature_disabled.
  lemma StoredCodeMatchesReply(kind: Kind, ending: Ending)
    requires Possible(kind, ending)
    ensures LastUpdate(kind, ending).status.SmtpAccepted? <==> ReplyOf(kind, ending).Accepted?
    ensures Terminal(LastUpdate(kind, ending).status)
    ensures LastUpdate(kind, ending).code
            == (match ReplyOf(kind, ending) case Accepted => None case Refused(c) => Some(c))
            <==> !(kind.Single? && ending == TurnedAway(Validation, FeatureDisabledError))
  {
  }

  // The last update of every ending, spelled out.
  lemma LastUpdateSpelledOut(ending: Ending)
    requires Possible(Single, ending)
    ensures var single, bulk := LastUpdate(Single, ending), LastUpdate(Bulk, ending);
            match ending
            case TurnedAway(Admission, e) =>
              && single.status == Rejected && single.message == None
              && single.code == Some(match e
                                     case UnsupportedMediaTypeError => UnsupportedMediaType
                                     case PayloadTooLargeError => PayloadTooLarge
                                     case BadRequestError => BadRequest
                                     case _ => RateLimitExceeded)
              && bulk.status == Rejected && bulk.code == Some(RateLimitExceeded)
            case TurnedAway(Validation, e) =>
              && single == Update(Rejected, Some(ValidationFailed), None)
              && bulk == Update(Rejected, Some(if e.ValidationError? then ValidationFailed else InternalError),
                                Some("Request rejected during validation."))
            case TurnedAway(Building, _) =>
              && single == bulk == Update(Rejected, Some(InternalError), Some("Failed to build mail message."))
            case Delivered =>
              && single == Update(SmtpAccepted, None, Some("The message was accepted by the configured SMTP server."))
              && bulk == Update(SmtpAccepted, None, Some("Accepted by SMTP server."))
            case Undelivered(e) =>
              && single.status == SmtpFailed && single.message == None
              && single.code == Some(if e == SmtpRejectedError then SmtpRejectedMessage else SmtpUnavailable)
              && bulk == Update(SmtpFailed, Some(SmtpUnavailable), Some("SMTP server unavailable."))
    ensures StartUpdate(Single) == Update(SubmissionStarted, None, None)
    ensures StartUpdate(Bulk) == Update(SubmissionStarted, None, Some("Submitting to SMTP."))
  {
  }

  // The code of every error, in a single response and in a bulk result.
  lemma CodesSpelledOut(e: AppError)
    ensures ErrorCodeOf(e) == match e
                              case BadRequestError => BadRequest
                              case UnauthorizedError => Unauthorized
                              case ForbiddenError => Forbidden
                              case PayloadTooLargeError => PayloadTooLarge
                              case UnsupportedMediaTypeError => UnsupportedMediaType
                              case RateLimitedError(_) => RateLimitExceeded
                              case ValidationError => ValidationFailed
                              case SmtpUnavailableError => SmtpUnavailable
                              case SmtpRejectedError => SmtpRejectedMessage
                              case FeatureDisabledError => FeatureDisabled
                              case InternalFailure => InternalError
    ensures BulkCode(e) == if e.UnauthorizedError? || e.SmtpRejectedError? || e.FeatureDisabledError?
                           then InternalError else ErrorCodeOf(e)
    ensures StoreCode(e) == if e.InternalFailure? then None else Some(ErrorCodeOf(e))
  {
  }

  // --------------------------------------------------------------------------
  // The machine
  // --------------------------------------------------------------------------

  datatype Pc =
    | Arrived             // nothing stored yet
    | Recorded            // the Received record is put
    | Validated           // the request passed all checks
    | Described           // recipient metadata is set
    | Prepared            // the mail is built
    | InFlight            // submission is marked as started, SMTP is working
    | Settling(ending: Ending)   // the ending is known, its update is next
    | Finished(ending: Ending)   // the reply is out
    | Cancelled           // the request was dropped

  datatype Handler = Handler(kind: Kind, record: Record, pc: Pc)

  datatype Choice =
    | Proceed
    | TurnAway(error: AppError)
    | Describe(domains: seq<string>, count: nat)
    | SmtpAnswers(ending: Ending)

  function StageOf(e: AppError): Ending {
    if e.ValidationError? || e.FeatureDisabledError? then TurnedAway(Validation, e) else TurnedAway(Admission, e)
  }

  predicate CanAct(h: Handler, c: Choice) {
    match h.pc
    case Arrived => c.Proceed?
    case Recorded => c.Proceed? || (c.TurnAway? && Possible(h.kind, StageOf(c.error)))
    case Validated => c.Describe?
    case Described => c.Proceed? || (c.TurnAway? && Possible(h.kind, TurnedAway(Building, c.error)))
    case Prepared => c.Proceed?
    case InFlight => c.SmtpAnswers? && !c.ending.TurnedAway? && Possible(h.kind, c.ending)
    case Settling(_) => c.Proceed?
    case Finished(_) => false
    case Cancelled => false
  }

  function NextPc(h: Handler, c: Choice): Pc
    requires CanAct(h, c)
  {
    match h.pc
    case Arrived => Recorded
    case Recorded => if c.TurnAway? then Settling(StageOf(c.error)) else Validated
    case Validated => Described
    case Described => if c.TurnAway? then Settling(TurnedAway(Building, c.error)) else Prepared
    case Prepared => InFlight
    case InFlight => Settling(c.ending)
    case Settling(e) => Finished(e)
  }

  // The store call the step makes, if any.
  datatype Action =
    | NoAction | PutAction | MetadataAction(domains: seq<string>, count: nat) | UpdateAction(update: Update)

  function ActionOf(h: Handler, c: Choice): Action
    requires CanAct(h, c)
  {
    match h.pc
    case Arrived => PutAction
    case Recorded => NoAction
    case Validated => MetadataAction(c.domains, c.count)
    case Described => NoAction
    case Prepared => UpdateAction(StartUpdate(h.kind))
    case InFlight => NoAction
    case Settling(e) => UpdateAction(LastUpdate(h.kind, e))
  }

  // How far from the end the handler is.
  function Remaining(pc: Pc): nat {
    match pc
    case Arrived => 7
    case Recorded => 6
    case Validated => 5
    case Described => 4
    case Prepared => 3
    case InFlight => 2
    case Settling(_) => 1
    case Finished(_) => 0
    case Cancelled => 0
  }
}

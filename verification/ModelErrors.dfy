/**
 Why a model call failed (ai/models/src/errors.ts), and what the enrichment steps make of it:
 `skipReasonFor` of ai/enrich/src/summarize.ts, `skippable` of ai/enrich/src/embed.ts.
 */
module ModelErrors {
  import opened Common

  datatype Code =
    | Withheld | SpentBudget | RateLimited | Server | Timeout | Network | Auth | Refused | BadResponse | TooLarge
    | Unsupported | Blocked

  /** Codes worth trying again later. */
  predicate Retryable(c: Code) {
    c.RateLimited? || c.Server? || c.Timeout? || c.Network?
  }

  /** What a step's call throws. `StepTimeout` is the step's own time running out. */
  datatype Thrown = Model(code: Code) | BadOutput | BadVectors | StepTimeout | Other

  /** Where the job is when it does: its signal has fired; it is on its last attempt. */
  datatype Job = Job(aborted: bool, finalAttempt: bool)

  datatype Reason = ModelOutput | CallRefused | BadAnswer | OverSize | Unavailable

  /** Summarize: why the version is skipped, or None to fail the job. */
  function SkipReason(e: Thrown, j: Job): Option<Reason> {
    if j.aborted then None
    else match e
      case BadOutput => Some(ModelOutput)
      case Model(code) =>
        (match code
         case Refused => Some(CallRefused)
         case Auth => Some(CallRefused)
         case Blocked => Some(CallRefused)
         case Unsupported => Some(CallRefused)
         case BadResponse => Some(BadAnswer)
         case TooLarge => Some(OverSize)
         case _ => if j.finalAttempt then Some(Unavailable) else None)
      case StepTimeout => if j.finalAttempt then Some(Unavailable) else None
      case _ => None
  }

  /** Embed: whether the version is processed without vectors; else the job fails. */
  predicate Skippable(e: Thrown, j: Job) {
    if j.aborted then false
    else match e
      case BadVectors => true
      case Model(code) =>
        if code in {Refused, Auth, Blocked, Unsupported, BadResponse, TooLarge} then true else j.finalAttempt
      case StepTimeout => j.finalAttempt
      case _ => false
  }

  /**
   The two steps agree on every model error, and on a retryable one both fail the job exactly when
   it is not on its last attempt (or its own signal fired), so that it is tried again.
   */
  lemma StepsAgree(code: Code, j: Job)
    ensures Skippable(Model(code), j) <==> SkipReason(Model(code), j).Some?
    ensures Retryable(code) ==> (Skippable(Model(code), j) <==> j.finalAttempt && !j.aborted)
  {
  }

  /**
   Which reason a version is skipped for. What is recorded as unavailable, to be taken up again later, is just what
   failed the job on every attempt before its last; the others say what was wrong and are for good.
   */
  lemma ReasonsExactly(e: Thrown, j: Job)
    ensures SkipReason(e, j) == Some(Unavailable) <==>
            && !j.aborted && j.finalAttempt && SkipReason(e, Job(false, false)) == None
            && e != Other && e != BadVectors
    ensures SkipReason(e, j) == Some(CallRefused) <==>
            !j.aborted && e.Model? && e.code in {Refused, Auth, Blocked, Unsupported}
    ensures SkipReason(e, j) == Some(BadAnswer) <==> !j.aborted && e == Model(BadResponse)
    ensures SkipReason(e, j) == Some(OverSize) <==> !j.aborted && e == Model(TooLarge)
    ensures SkipReason(e, j) == Some(ModelOutput) <==> !j.aborted && e == BadOutput
    ensures Skippable(e, j) <==>
            && !j.aborted
            && (e == BadVectors || (e.Model? && SkipReason(e, j).Some?) || (e == StepTimeout && j.finalAttempt))
  {
  }
}

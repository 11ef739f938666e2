/** What the decisions loop does with the Companion Gateway's answer to one approval. */
module Carry {
  import opened Strings
  import opened R = Reference
  import opened Schedule
  import opened Thread

  // ---------------------------------------------------------------- refusal codes

  datatype Remedy = Retry | Reload | SignIn | Diagnostics | Nothing

  const TABLE: map<string, Remedy> := map[
    "malformed_request" := Diagnostics,
    "approval_is_not_a_batch" := Diagnostics,
    "unknown_value" := Diagnostics,
    "approved_by_is_not_the_owner" := Diagnostics,
    "unauthenticated" := SignIn,
    "suggestion_not_found" := Reload,
    "trigger_not_found" := Nothing,
    "suggestion_out_of_reach" := Nothing,
    "trigger_out_of_reach" := Nothing,
    "suggestion_expired" := Nothing,
    "consent_revoked" := Nothing,
    "consent_pending" := Nothing,
    "suggestion_was_never_consented" := Nothing,
    "already_approved" := Reload,
    "trigger_has_no_room" := Nothing,
    "connection_not_connected" := Nothing,
    "suggestion_unreadable" := Nothing,
    "bus_unreachable" := Retry,
    "store_unavailable" := Retry,
    "approval_published_but_not_recorded" := Reload,
    "approvals_not_configured" := Nothing
  ]

  function RemedyFor(code: string): Remedy {
    if code in TABLE then TABLE[code] else Diagnostics
  }

  /** The reply went out, although the Gateway could not record it. */
  predicate WentOut(code: string) {
    code == "approval_published_but_not_recorded"
  }

  datatype Refusal = SentUnrecorded | TryAgain | Final

  /** The three ways a coded refusal is taken, in the order the loop asks. */
  function Classify(code: string): Refusal {
    if WentOut(code) then SentUnrecorded else if RemedyFor(code).Retry? then TryAgain else Final
  }

  // ---------------------------------------------------------------- the loop's table

  datatype GatewayAnswer =
    | Approved(already: bool)
    | Refused(refusal: Refusal)
    | Unauthenticated
    | NoUsableAnswer

  /** How the client takes an HTTP answer to an approval that is not a `401`. `record` says
      whether the approval's record could be read where that status carries one. */
  function Taken(status: nat, code: Option<string>, record: bool): GatewayAnswer {
    if 200 <= status < 300 then if record then Approved(false) else NoUsableAnswer
    else if code.None? then NoUsableAnswer
    else if status == 409 && code.value == "already_approved" then if record then Approved(true) else NoUsableAnswer
    else GatewayAnswer.Refused(Classify(code.value))
  }

  datatype Followup = DeletePost | Say(reply: Reply) | Wait

  /** What follows the Gateway's answer. `told`: the gesture was told "revoked" before.
      `near`: the post expires within a turn of the loop and a request's time. */
  function AfterGateway(a: GatewayAnswer, told: bool, near: bool): Followup {
    match a
    case Approved(_) => DeletePost
    case Refused(SentUnrecorded) => DeletePost
    case Refused(Final) => Say(Reply.Refused)
    case Refused(TryAgain) => if near then Say(NotRecorded) else Wait
    case NoUsableAnswer => if near then Say(NotRecorded) else Wait
    case Unauthenticated => if told then Wait else Say(Revoked)
  }

  const REQUEST_TIMEOUT := 10

  function NotRecordedWindow(decision: nat): nat {
    decision + REQUEST_TIMEOUT
  }

  predicate ExpiresWithin(about: Option<Reference>, now: I64, window: nat, clock: Clock) {
    Dated(about, clock).Some? && Saturate(Dated(about, clock).value - now) <= window
  }

  /** Only the two codes about what is behind the Gateway are tried again, only one code
      means the reply went out, and every other code, known or not, is answered. */
  lemma Classified(code: string)
    ensures Classify(code) == SentUnrecorded <==> code == "approval_published_but_not_recorded"
    ensures Classify(code) == TryAgain <==> code == "bus_unreachable" || code == "store_unavailable"
  {
  }

  /** A code that says no for good: any, known or not, but the three that do not. */
  predicate SaysNoForGood(status: nat, code: Option<string>) {
    && !(200 <= status < 300) && code.Some?
    && code.value !in ["bus_unreachable", "store_unavailable", "approval_published_but_not_recorded"]
    && !(status == 409 && code.value == "already_approved")
  }

  /** What an HTTP answer to an approval leads to when it does not take the post down: a
      refusal for good is told in the thread; anything else, an answer that carries nothing
      usable or a code to be tried again, is waited out, and told as not recorded only if
      the post is about to expire. A session that is refused is told once. */
  lemma WhatIsSaid(status: nat, code: Option<string>, record: bool, told: bool, near: bool)
    ensures var follows := AfterGateway(Taken(status, code, record), told, near);
      && (follows == Say(Reply.Refused) <==> SaysNoForGood(status, code))
      && (!follows.DeletePost? && !SaysNoForGood(status, code) ==> follows == if near then Say(NotRecorded) else Wait)
    ensures AfterGateway(GatewayAnswer.Unauthenticated, told, near) == if told then Wait else Say(Revoked)
  {
    if code.Some? {
      Classified(code.value);
    }
  }

  /** A post is about to expire when it is dated and at most the loop's own interval and ten
      seconds are left; if that sum is itself no less than the largest 64-bit time, always. */
  lemma ExpiresSoon(about: Option<Reference>, now: I64, decision: nat, clock: Clock)
    ensures ExpiresWithin(about, now, NotRecordedWindow(decision), clock) <==>
      && about.Some? && about.value.expiresAt.Some? && clock(about.value.expiresAt.value).Some?
      && (clock(about.value.expiresAt.value).value - now <= decision + 10 || 0x7fff_ffff_ffff_ffff <= decision + 10)
  {
  }

  /** An HTTP answer takes the post down exactly when it carries the record of an approval,
      new or already held, or says that the reply went out unrecorded. */
  lemma TakesThePostDown(status: nat, code: Option<string>, record: bool, told: bool, near: bool)
    ensures AfterGateway(Taken(status, code, record), told, near).DeletePost? <==>
      || (200 <= status < 300 && record)
      || (status == 409 && code == Some("already_approved") && record)
      || (!(200 <= status < 300) && code == Some("approval_published_but_not_recorded"))
  {
    if code.Some? {
      Classified(code.value);
    }
  }
}

/** The clocks the clerk acts on: when a post is swept, when a message is retried, when
    the session is refreshed. Seconds since the epoch are 64-bit in the program, so its
    saturating and wrapping arithmetic is written out. */
module Schedule {
  import opened Strings
  import opened R = Reference

  const I64_MAX: int := 0x7fff_ffff_ffff_ffff
  const I64_MIN: int := -0x8000_0000_0000_0000

  type I64 = n: int | I64_MIN <= n <= I64_MAX
  type U64 = n: int | 0 <= n < 0x1_0000_0000_0000_0000

  /** What reads an RFC 3339 timestamp as seconds since the epoch, where it can. */
  type Clock = string -> Option<I64>

  function Saturate(n: int): I64 {
    if n < I64_MIN then I64_MIN else if n > I64_MAX then I64_MAX else n
  }

  /** `as i64`. */
  function AsI64(n: U64): I64 {
    if n <= I64_MAX then n else n - 0x1_0000_0000_0000_0000
  }

  // ---------------------------------------------------------------- one post

  /** The instant a reference dates its post by, if it carries one that can be read. */
  function Dated(about: Option<Reference>, clock: Clock): Option<I64> {
    if about.Some? && about.value.expiresAt.Some? then clock(about.value.expiresAt.value) else None
  }

  predicate HasExpired(expiresAt: string, now: I64, clock: Clock) {
    clock(expiresAt).Some? && clock(expiresAt).value <= now
  }

  predicate PastCeiling(createdAt: I64, now: I64) {
    Saturate(createdAt + UNDATABLE_CEILING) <= now
  }

  datatype Verdict = Stands | StandsUndated | Expired | PastTheCeiling

  function VerdictOn(about: Option<Reference>, createdAt: U64, now: I64, clock: Clock): Verdict {
    match Dated(about, clock)
    case Some(at) => if at <= now then Expired else Stands
    case None => if PastCeiling(AsI64(createdAt), now) then PastTheCeiling else StandsUndated
  }

  predicate Deletes(v: Verdict) {
    v.Expired? || v.PastTheCeiling?
  }

  /** What the decisions loop calls an expired post. */
  predicate PostHasExpired(about: Option<Reference>, now: I64, clock: Clock) {
    about.Some? && about.value.expiresAt.Some? && HasExpired(about.value.expiresAt.value, now, clock)
  }

  /** The last instant at which a post still stands is the one before this. */
  function Due(about: Option<Reference>, createdAt: U64, clock: Clock): I64 {
    match Dated(about, clock)
    case Some(at) => at
    case None => Saturate(AsI64(createdAt) + UNDATABLE_CEILING)
  }

  /** The sweep deletes exactly from the due instant on: a dated post from its expiry on, one
      the clock cannot date from seven days after it was written, as far as 64 bits go; once
      it may it always may. The loop calls a post expired exactly when the sweep deletes it
      as expired. */
  lemma SweptFromItsDueInstant(about: Option<Reference>, createdAt: U64, now: I64, later: I64, clock: Clock)
    requires now <= later
    ensures Deletes(VerdictOn(about, createdAt, now, clock)) <==> Due(about, createdAt, clock) <= now
    ensures VerdictOn(about, createdAt, now, clock).Expired? <==> PostHasExpired(about, now, clock)
    ensures VerdictOn(about, createdAt, now, clock).Expired? <==>
      about.Some? && about.value.expiresAt.Some? && clock(about.value.expiresAt.value).Some? && clock(about.value.expiresAt.value).value <= now
    ensures VerdictOn(about, createdAt, now, clock).PastTheCeiling? <==>
      && !(about.Some? && about.value.expiresAt.Some? && clock(about.value.expiresAt.value).Some?)
      && (if createdAt > 0x7fff_ffff_ffff_ffff then createdAt - 0x1_0000_0000_0000_0000 + 604800 <= now
          else createdAt + 604800 <= now || now == 0x7fff_ffff_ffff_ffff)
    ensures Deletes(VerdictOn(about, createdAt, now, clock)) <==>
      VerdictOn(about, createdAt, now, clock).Expired? || VerdictOn(about, createdAt, now, clock).PastTheCeiling?
    ensures Deletes(VerdictOn(about, createdAt, now, clock)) ==> Deletes(VerdictOn(about, createdAt, later, clock))
  {
  }

  // ---------------------------------------------------------------- the retry schedule of the bus

  const MAX_DELIVER := 64
  const NAK_DELAY_MAX := 60

  function NakDelay(delivered: int): nat {
    if delivered < 0 then 1
    else if delivered >= 6 then NAK_DELAY_MAX
    else if delivered == 0 then 1 else 2 * NakDelay(delivered - 1)
  }

  /** The wait doubles from two seconds after the first delivery to thirty-two after the
      fifth, and is a minute from then on; a count that makes no sense waits a second. */
  lemma NaksBackOff(delivered: int)
    ensures 1 <= delivered <= 5 ==> NakDelay(delivered) == [2, 4, 8, 16, 32][delivered - 1]
    ensures delivered > 5 ==> NakDelay(delivered) == 60
    ensures delivered <= 0 ==> NakDelay(delivered) == 1
  {
  }

  /** How long after the first delivery the one after the `n`-th nak comes. */
  function SumOfDelays(n: nat): nat {
    if n == 0 then 0 else SumOfDelays(n - 1) + NakDelay(n)
  }

  lemma {:induction false} DelaysSum(n: nat)
    requires n >= 5
    ensures SumOfDelays(n) == 62 + 60 * (n - 5)
  {
    if n == 5 {
      assert SumOfDelays(3) == 14;
    } else {
      DelaysSum(n - 1);
    }
  }

  /** Of any number of deliveries, exactly the first sixty-four come inside the hour a
      suggestion lives. */
  lemma LastDeliveryInsideTheHour(delivery: nat)
    requires delivery >= 1
    ensures SumOfDelays(delivery - 1) < 3600 <==> delivery <= MAX_DELIVER
  {
    if delivery >= 6 {
      DelaysSum(delivery - 1);
    } else {
      DelaysSum(5);
      DelaysGrow(delivery - 1, 5);
    }
  }

  lemma {:induction false} DelaysGrow(m: nat, n: nat)
    requires m <= n
    ensures SumOfDelays(m) <= SumOfDelays(n)
  {
    if m < n {
      DelaysGrow(m, n - 1);
    }
  }

  // ---------------------------------------------------------------- the session's refreshes

  const SESSION_REFRESH_PERIOD := 24 * 60 * 60

  datatype Session = Alive | Dead

  function NextRefreshFor(scheduled: int, now: int, session: Session, retry: nat): int {
    if session.Dead? && now + retry < scheduled then now + retry else scheduled
  }

  /** One turn of the decisions loop: when it started and ended, whether a refresh it made
      succeeded, and what the session was at its end. */
  datatype Turn = Turn(start: int, end: int, refreshed: bool, session: Session)

  predicate Refreshes(deadline: int, t: Turn) {
    t.start >= deadline
  }

  function DeadlineAfter(deadline: int, t: Turn, retry: nat): int {
    var next :=
      if Refreshes(deadline, t) then t.start + (if t.refreshed then SESSION_REFRESH_PERIOD else retry) else deadline;
    NextRefreshFor(next, t.end, t.session, retry)
  }

  /** What a turn makes of the deadline. Without a refresh it stays, unless the session is
      dead and a retry from now would come sooner; a refresh puts it a day off if it
      succeeded and a retry off if not, and again no later than a retry if the session is
      dead by the end. */
  lemma DeadlineMoves(deadline: int, t: Turn, retry: nat)
    ensures t.session.Alive? && t.start < deadline ==> DeadlineAfter(deadline, t, retry) == deadline
    ensures t.session.Alive? && t.start >= deadline && t.refreshed ==> DeadlineAfter(deadline, t, retry) == t.start + 86400
    ensures t.session.Alive? && t.start >= deadline && !t.refreshed ==> DeadlineAfter(deadline, t, retry) == t.start + retry
    ensures t.session.Dead? ==> DeadlineAfter(deadline, t, retry) <= t.end + retry
    ensures t.session.Dead? ==>
      DeadlineAfter(deadline, t, retry) in [t.end + retry, DeadlineAfter(deadline, t.(session := Alive), retry)]
    ensures DeadlineAfter(deadline, t, retry) <= DeadlineAfter(deadline, t.(session := Alive), retry)
  {
  }

  /** `deadlines[i]` is the refresh deadline when turn `i` starts. */
  predicate Scheduled(deadlines: seq<int>, turns: seq<Turn>, retry: nat) {
    && |deadlines| == |turns| + 1
    && forall i :: 0 <= i < |turns| ==> deadlines[i + 1] == DeadlineAfter(deadlines[i], turns[i], retry)
  }

  predicate AllDead(turns: seq<Turn>) {
    forall i :: 0 <= i < |turns| ==> turns[i].session.Dead?
  }

  /** While the session is dead and no refresh is made, the deadline never moves away and
      stays within one retry of the first turn that ended dead. */
  lemma {:induction false} DeadlineHolds(deadlines: seq<int>, turns: seq<Turn>, retry: nat, k: nat)
    requires Scheduled(deadlines, turns, retry) && AllDead(turns)
    requires 1 <= k <= |turns|
    requires forall i :: 0 < i < k ==> !Refreshes(deadlines[i], turns[i])
    ensures deadlines[k] <= deadlines[1] <= turns[0].end + retry
  {
    if k > 1 {
      DeadlineHolds(deadlines, turns, retry, k - 1);
      assert deadlines[k - 1 + 1] == DeadlineAfter(deadlines[k - 1], turns[k - 1], retry);
    } else {
      assert deadlines[0 + 1] == DeadlineAfter(deadlines[0], turns[0], retry);
    }
  }

  /** So a retry always comes: among turns that all end with the session dead, once one
      starts a retry after the first ended, some turn after the first refreshed. */
  lemma ARetryComes(deadlines: seq<int>, turns: seq<Turn>, retry: nat)
    requires Scheduled(deadlines, turns, retry) && AllDead(turns)
    requires |turns| >= 2 && turns[|turns| - 1].start >= turns[0].end + retry
    ensures exists i :: 0 < i < |turns| && Refreshes(deadlines[i], turns[i])
  {
    var last := |turns| - 1;
    if !Refreshes(deadlines[last], turns[last]) && forall i :: 0 < i < last ==> !Refreshes(deadlines[i], turns[i]) {
      DeadlineHolds(deadlines, turns, retry, last);
    }
  }
}

/** What a pass of one of the clerk's tasks amounts to: a suggestion handled, a sweep, a tick
    of the decisions loop, accounted for by what the relay shows. */
module Accounting {
  import opened Strings
  import opened Relay
  import opened Decisions
  import opened Schedule
  import opened Thread
  import opened Carry
  import opened Gateways
  import opened Protocol
  import opened Safety
  import opened Guarantees
  import opened Histories
  import opened Approvals
  import opened Silence
  import opened Answering
  import opened Quiescence
  import opened Runs

  // ---------------------------------------------------------------- how requests go

  /** How a request of the relay goes: answered, or not, when it may have taken effect all
      the same and may be worth another try. */
  datatype Request = Fine | Lost(took: bool, transient: bool)
  {
    predicate Took() {
      Fine? || took
    }
  }

  /** What the Gateway would say, if it can truly say it: of an approval, and of the session
      to a refresh. */
  datatype Offer = Offer(answer: GatewayAnswer, session: Option<Session>)

  /** What it would say to the read at posting time. */
  datatype ReadReply = ReadReply(approved: bool, dies: bool)

  /** How many of the requests from number `from` up to number `to` went unanswered. */
  function Failures(requests: nat -> Request, from: nat, to: nat): nat {
    if to <= from then 0 else Failures(requests, from, to - 1) + (if requests(to - 1).Fine? then 0 else 1)
  }

  lemma {:induction false} FailuresJoin(requests: nat -> Request, a: nat, b: nat, c: nat)
    requires a <= b <= c
    ensures Failures(requests, a, c) == Failures(requests, a, b) + Failures(requests, b, c)
    decreases c
  {
    if b < c {
      FailuresJoin(requests, a, b, c - 1);
    }
  }

  // ---------------------------------------------------------------- one suggestion

  /** The expiry of the message can be read, and has passed. */
  predicate PastExpiry(m: Message, now: I64, clock: Clock) {
    && m.Suggestion? && m.expiresAt.Some?
    && clock(m.expiresAt.value).Some? && clock(m.expiresAt.value).value <= now
  }

  /** What handling a message no post stood for comes to: skipped if the Gateway, read at
      `read`, held an approval and said so, and otherwise its own post written if that
      request took effect. */
  ghost predicate PostedAs(
      w: World, v: World, m: nat, id: string, createdAt: U64, said: ReadReply, write: Request, read: World)
  {
    && m < |w.stream| && w.stream[m].Suggestion?
    && var skips := said.approved && !said.dies && read.session.Alive? && w.stream[m].id in read.gateway.rows;
      && v.consumer == Handled(m,
          if skips then SkippedAlreadyApproved
          else if write.Fine? then Posted
          else if write.transient then Naked
          else RefusedForGood)
      && v.relay.everPosts == w.relay.everPosts + if !skips && write.Took() then {NewPost(id, w.stream[m], createdAt)} else {}
  }

  /** What settles a message before anything is posted, `look` being how the read of the
      clerk's own posts went: it cannot be read, it has expired, the posts could not be read,
      or one of them names it. */
  ghost function SettledEarly(cfg: Config, w: World, m: nat, look: Request): Option<Outcome>
    requires m < |w.stream|
  {
    if w.stream[m].Garbage? then Some(SkippedUnreadable)
    else if PastExpiry(w.stream[m], w.now, cfg.clock) then Some(SkippedExpired)
    else if look.Lost? then Some(if look.transient then Naked else RefusedForGood)
    else if exists p :: p in w.relay.posts && w.relay.posts[p].Names(w.stream[m].id) then Some(SkippedDuplicate)
    else None
  }

  lemma LookIs(cfg: Config, w: World, m: nat, look: Request)
    requires ConsumerCan(w, Look(m, look.Fine?, look.Lost? && look.transient))
    ensures ConsumerDoes(cfg, w, Look(m, look.Fine?, look.Lost? && look.transient)) == w.(consumer :=
      match SettledEarly(cfg, w, m, look)
      case Some(outcome) => Handled(m, outcome)
      case None => Clear(m))
  {
  }

  /** And any message. */
  ghost predicate HandledAs(
      cfg: Config, w: World, v: World, m: nat, id: string, createdAt: U64, look: Request, said: ReadReply, write: Request, read: World)
  {
    && m < |w.stream|
    && match SettledEarly(cfg, w, m, look)
      case Some(outcome) => v.consumer == Handled(m, outcome) && v.relay == w.relay
      case None => PostedAs(w, v, m, id, createdAt, said, write, read)
  }

  // ---------------------------------------------------------------- one line

  /** What became of a report's line. */
  datatype Lined = Wrote | LineStood | LookFailed | WriteFailed

  /** The line of a report is tagged with the approval's id, and tells the two reports of an
      approval apart. */
  function TagOf(report: Report): string {
    report.approval + if report.DeadReport? then ":dead" else ""
  }

  lemma LineIsLookedFor(w: World, report: Report, answered: bool)
    requires w.journalist.Resting?
    ensures JournalistDoes(w, LookForLine(report, answered))
      == w.(journalist := if answered && TagOf(report) !in w.relay.journal then Unlined(TagOf(report)) else Resting)
  {
    assert report.approval + "" == report.approval;
  }

  // ---------------------------------------------------------------- the tick's account

  datatype DecisionsTick = DecisionsTick(
    approved: nat, refusedLocally: nat, answered: nat, deferred: nat, failures: nat)
  {
    predicate Happened() {
      approved + refusedLocally + answered + deferred + failures > 0
    }

    function Decided(): nat {
      approved + refusedLocally
    }
  }

  const NO_TICK := DecisionsTick(0, 0, 0, 0, 0)

  /** A tick's account of what it wrote: every answer it counts is on the relay, and every
      answer on the relay is counted, as an answer or as a failure. */
  ghost predicate Accounts(before: DecisionsTick, after: DecisionsTick, w: World, v: World) {
    && before.answered <= after.answered && before.failures <= after.failures
    && before.approved <= after.approved && before.refusedLocally <= after.refusedLocally && before.deferred <= after.deferred
    && |w.relay.answers| + (after.answered - before.answered) <= |v.relay.answers|
    && |v.relay.answers| <= |w.relay.answers| + (after.answered - before.answered) + (after.failures - before.failures)
    && w.relay.answers <= v.relay.answers
  }

  lemma AccountsOn(a: DecisionsTick, b: DecisionsTick, c: DecisionsTick, w: World, v: World, u: World)
    requires Accounts(a, b, w, v) && Accounts(b, c, v, u)
    ensures Accounts(a, c, w, u)
  {
  }

  /** The item at hand is answered without asking the Gateway. */
  predicate AnswersAtOnce(w: World) {
    && w.decider.Working? && w.decider.todo != []
    && var item := w.decider.todo[0];
      item.Stranger? || item.Late?
      || (!item.told && !item.d.gesture.Refuse? && item.post.about.Some? && w.session.Dead?)
  }

  predicate Refuses(item: Item) {
    item.Act? && item.d.gesture.Refuse? && item.post.about.Some?
  }

  /** The Gateway gave no usable answer, or asked to be asked again. */
  predicate Defers(answer: GatewayAnswer) {
    answer.NoUsableAnswer? || answer == GatewayAnswer.Refused(TryAgain)
  }

  /** The item's post is gone, and the reply it proposed is on the bus. */
  ghost predicate TakenDownAsSent(item: Item, w: World) {
    && item.post.id !in w.relay.posts && item.post.about.Some?
    && Count(w.gateway.sent, item.post.about.value.suggestionId) >= 1
  }

  /** What the owner is told once `answer` is heard at `heard`, if anything. */
  function ToldAfter(cfg: Config, heard: World, item: Item, answer: GatewayAnswer): Option<Reply> {
    match answer
    case Approved(_) => None
    case Refused(SentUnrecorded) => None
    case Refused(Final) => Some(Reply.Refused)
    case Unauthenticated => if item.Act? && item.told then None else Some(Revoked)
    case _ => if AboutToExpire(item.post.about, heard.now, cfg.decision, cfg.clock) then Some(NotRecorded) else None
  }

  /** The reply went out, recorded or not. */
  predicate WentOutOn(answer: GatewayAnswer) {
    answer.Approved? || answer == GatewayAnswer.Refused(SentUnrecorded)
  }

  /** Where the loop is once it heard the answer to the approval of the first item: its post
      to take down, a reply to write, or the next item. */
  ghost predicate FollowsFrom(cfg: Config, d: Decider, heard: World, answer: GatewayAnswer, next: Decider) {
    && d.Working? && d.todo != [] && d.todo[0].Act?
    && var item, rest := d.todo[0], d.todo[1..];
      next ==
        if WentOutOn(answer) then Deleting(d.seen, d.spent, item, rest)
        else match ToldAfter(cfg, heard, item, answer)
          case Some(reply) => Saying(d.seen, d.spent, item, reply, rest)
          case None => Resume(d.seen, d.spent, rest)
  }

  /** What the answer was, `offered` being what the Gateway would say: that, if it was true of
      how far the run got, and otherwise no answer. */
  predicate Heard(heard: World, answer: GatewayAnswer, offered: GatewayAnswer) {
    && heard.decider.Asking? && heard.decider.run < |heard.gateway.runs|
    && answer == if Truthful(heard.gateway.runs[heard.decider.run].phase, offered) then offered else NoUsableAnswer
  }

  /** One request for the reply: on the relay if it took effect, counted one way or the other. */
  predicate Replied(w: World, v: World, a: DecisionsTick, b: DecisionsTick, item: Item, reply: Reply, request: Request) {
    && v.relay.answers == w.relay.answers + (if request.Took() then [Answer(item.post.id, item.d.gestureId, reply)] else [])
    && b == if request.Fine? then a.(answered := a.answered + 1) else a.(failures := a.failures + 1)
  }

  /** The approval of `item` as the Gateway's answer has it: the post taken down, the owner
      told, or nothing done and the gesture left unspent for another tick. Only an answer that
      is none, or asks to be asked again, is put off. */
  ghost predicate CarriedAs(
      cfg: Config, w: World, v: World, a: DecisionsTick, b: DecisionsTick, item: Item, heard: World, answer: GatewayAnswer, request: Request)
  {
    var c := if Defers(answer) then a.(deferred := a.deferred + 1) else a;
    if WentOutOn(answer) then
      && v.relay.answers == w.relay.answers
      && b == if request.Fine? then c.(approved := c.approved + 1) else c.(failures := c.failures + 1)
    else match ToldAfter(cfg, heard, item, answer)
      case Some(reply) => Replied(w, v, c, b, item, reply, request)
      case None => v.relay.answers == w.relay.answers && b == c
  }

  /** The first item, the owner's gesture, carried from `w` on. On a post that names no
      suggestion nothing is done; a refusal takes the post down; an approval that meets a
      dead session is told "revoked" if it was not before; any other is the Gateway's to
      answer. */
  ghost predicate CarriedFrom(
      cfg: Config, w: World, v: World, a: DecisionsTick, b: DecisionsTick, answer: GatewayAnswer, heard: World, request: Request, offer: Offer)
  {
    && w.decider.Working? && w.decider.todo != []
    && var item := w.decider.todo[0];
      if item.Act? && item.post.about.None? then b == a && v.relay == w.relay
      else if item.d.gesture.Refuse? then
        && v.relay.answers == w.relay.answers && (request.Took() ==> item.post.id !in v.relay.posts)
        && b == if request.Fine? then a.(refusedLocally := a.refusedLocally + 1) else a.(failures := a.failures + 1)
      else if w.session.Alive? then
        Leads(cfg, w, heard) && Heard(heard, answer, offer.answer) && CarriedAs(cfg, w, v, a, b, item, heard, answer, request)
      else if item.Act? && item.told then b == a && v.relay == w.relay
      else Replied(w, v, a, b, item, Revoked, request)
  }

  lemma CarriedCounts(
      cfg: Config, w: World, v: World, a: DecisionsTick, b: DecisionsTick, heard: World, answer: GatewayAnswer, request: Request, offer: Offer)
    requires Approves(w) && Leads(cfg, w, heard) && Heard(heard, answer, offer.answer)
    requires CarriedAs(cfg, w, v, a, b, w.decider.todo[0], heard, answer, request)
    ensures CarriedFrom(cfg, w, v, a, b, answer, heard, request, offer)
    ensures var asks := WentOutOn(answer) || ToldAfter(cfg, heard, w.decider.todo[0], answer).Some?;
      b.failures == a.failures + (if asks && request.Lost? then 1 else 0)
    ensures a.deferred <= b.deferred <= a.deferred + 1 && a.refusedLocally == b.refusedLocally && b.approved <= a.approved + 1
  {
  }

  /** An owner's gesture a tick may pass over: its post names no suggestion, or it was told
      "revoked" and waits for the session. */
  predicate WaitsSilently(item: Item) {
    item.Act? && (item.post.about.None? || item.told)
  }

  // ---------------------------------------------------------------- what a tick owes, paid

  /** The item's gesture is spent or was told "revoked" in its thread, or its post is gone, or
      there is no suggestion on it to act on. */
  ghost predicate Attended(item: Item, w: World) {
    || IsSpent(w.relay.answers, item.d.gestureId)
    || (item.Act? && (item.post.about.None? || item.post.id !in w.relay.posts
        || IsToldRevoked(w.relay.answers, item.d.gestureId)))
  }

  ghost predicate AllAttended(items: seq<Item>, w: World) {
    forall item :: item in items ==> Attended(item, w)
  }

  /** Nothing failed and nothing was put off. */
  predicate Calm(before: DecisionsTick, after: DecisionsTick) {
    after.failures == before.failures && after.deferred == before.deferred
  }

  lemma AttendedStays(item: Item, w: World, v: World)
    requires Onwards(w, v) && item.post in w.relay.everPosts && Attended(item, w)
    ensures Attended(item, v)
  {
    SpentStays(w.relay.answers, v.relay.answers, item.d.gestureId);
  }

  lemma AllAttendedStay(items: seq<Item>, w: World, v: World)
    requires Onwards(w, v) && AllAttended(items, w)
    requires forall item :: item in items ==> item.post in w.relay.everPosts
    ensures AllAttended(items, v)
  {
    forall item | item in items
      ensures Attended(item, v)
    {
      AttendedStays(item, w, v);
    }
  }

  lemma AnsweredIsAttended(w: World, item: Item, reply: Reply)
    requires reply.Revoked? ==> item.Act?
    ensures Attended(item, w.(relay := Answered(w, item, reply, true)))
  {
    LastAnswer(w.relay.answers, Answer(item.post.id, item.d.gestureId, reply));
  }

  lemma AnsweredAtOnce(cfg: Config, w: World)
    requires AnswersAtOnce(w)
    ensures Attended(w.decider.todo[0], ItemDoes(cfg, w, true))
  {
    var item := w.decider.todo[0];
    AnsweredIsAttended(w, item, if item.Stranger? then NotTheOwner else if item.Late? then Reply.Expired else Revoked);
  }

  lemma AtOnceIs(cfg: Config, w: World, took: bool)
    requires AnswersAtOnce(w)
    ensures var v, item := ItemDoes(cfg, w, took), w.decider.todo[0];
      && v.relay.answers == w.relay.answers + (if took then [Answer(item.post.id, item.d.gestureId, ReplyAtOnce(item))] else [])
      && v.decider == Resume(w.decider.seen, w.decider.spent, w.decider.todo[1..])
  {
  }

  lemma SaidIsAttended(cfg: Config, w: World)
    requires Inv(cfg, w) && w.decider.Saying?
    ensures Attended(w.decider.item, DeciderDoes(cfg, w, SayInThread(true)))
  {
    AnsweredIsAttended(w, w.decider.item, w.decider.reply);
  }

  /** From `w` on, the first `i` of `items` were answered, and the rest of the list is still
      to do. */
  ghost predicate AnswersSoFar(
      cfg: Config, w: World, v: World, a: DecisionsTick, b: DecisionsTick, items: seq<Item>, rest: seq<Item>, i: nat,
      seen: seq<Event>, spent: set<string>)
  {
    && i <= |items| && Leads(cfg, w, v) && Accounts(a, b, w, v)
    && v.decider == Resume(seen, spent, items[i..] + rest)
    && (a == b ==> i == 0) && b.approved == a.approved && b.refusedLocally == a.refusedLocally
    && (forall item :: item in items ==> item.post in v.relay.everPosts)
    && (Calm(a, b) ==> AllAttended(items[..i], v))
  }

  lemma AnswersBegin(cfg: Config, w: World, a: DecisionsTick, items: seq<Item>, rest: seq<Item>, seen: seq<Event>, spent: set<string>)
    requires Inv(cfg, w) && w.decider == Resume(seen, spent, items + rest)
    requires forall item :: item in items ==> item.post in w.relay.everPosts
    ensures AnswersSoFar(cfg, w, w, a, a, items, rest, 0, seen, spent)
  {
    LeadsNowhere(cfg, w);
    assert items[0..] == items;
  }

  /** One more item answered. */
  lemma OneItemOn(
      cfg: Config, w: World, v: World, u: World, a: DecisionsTick, b: DecisionsTick, c: DecisionsTick, items: seq<Item>, rest: seq<Item>,
      i: nat, seen: seq<Event>, spent: set<string>)
    requires i < |items| && Inv(cfg, v) && AnswersSoFar(cfg, w, v, a, b, items, rest, i, seen, spent)
    requires Leads(cfg, v, u) && Accounts(b, c, v, u) && c != b
    requires c.approved == b.approved && c.refusedLocally == b.refusedLocally
    requires u.decider == Resume(seen, spent, items[i + 1..] + rest)
    requires Calm(b, c) ==> Attended(items[i], u)
    ensures AnswersSoFar(cfg, w, u, a, c, items, rest, i + 1, seen, spent)
  {
    LeadsOn(cfg, w, v, u);
    AccountsOn(a, b, c, w, v, u);
    GoneStaysGone(cfg, v, u);
    if Calm(a, c) {
      OneMoreAttended(items, i, v, u);
    }
  }

  lemma OneMoreAttended(items: seq<Item>, i: nat, v: World, u: World)
    requires i < |items| && Onwards(v, u) && AllAttended(items[..i], v) && Attended(items[i], u)
    requires forall item :: item in items ==> item.post in v.relay.everPosts
    ensures AllAttended(items[..i + 1], u)
  {
    AllAttendedStay(items[..i], v, u);
    assert items[..i + 1] == items[..i] + [items[i]];
  }

  /** The list's head and what is left of it. */
  lemma NextAnswer(items: seq<Item>, rest: seq<Item>, i: nat)
    requires i < |items|
    ensures items[i..] + rest != [] && (items[i..] + rest)[0] == items[i]
    ensures (items[i..] + rest)[1..] == items[i + 1..] + rest
  {
  }

  lemma AnswersEnd(
      cfg: Config, w: World, v: World, a: DecisionsTick, b: DecisionsTick, items: seq<Item>, rest: seq<Item>, seen: seq<Event>, spent: set<string>)
    requires AnswersSoFar(cfg, w, v, a, b, items, rest, |items|, seen, spent)
    ensures v.decider == Resume(seen, spent, rest) && (Calm(a, b) ==> AllAttended(items, v))
  {
    assert items[|items|..] + rest == rest && items[..|items|] == items;
  }

  /** What deciding on one post comes to. */
  ghost predicate PostDecided(cfg: Config, w: World, v: World, a: DecisionsTick, b: DecisionsTick, post: Post, items: seq<Item>) {
    && Leads(cfg, w, v) && Accounts(a, b, w, v)
    && (a == b ==> forall item :: item in items ==> WaitsSilently(item))
    && (b.Decided() == a.Decided() || (b.Decided() == a.Decided() + 1 && post.id !in v.relay.posts))
    && (Calm(a, b) ==> AllAttended(items, v))
  }

  /** The strangers on it answered, and then the owner's first dealt with. */
  lemma StrangersThenOwner(
      cfg: Config, w: World, v: World, u: World, a: DecisionsTick, b: DecisionsTick, c: DecisionsTick, post: Post, some: seq<Item>, others: seq<Item>)
    requires Inv(cfg, v) && post in v.relay.everPosts && forall i :: 0 <= i < |some| ==> some[i].post == post
    requires PostDecided(cfg, w, v, a, b, post, some) && b.Decided() == a.Decided()
    requires PostDecided(cfg, v, u, b, c, post, others)
    ensures PostDecided(cfg, w, u, a, c, post, some + others)
  {
    LeadsOn(cfg, w, v, u);
    AccountsOn(a, b, c, w, v, u);
    BothAttended(cfg, v, u, some, others, post);
  }

  lemma BothAttended(cfg: Config, v: World, u: World, some: seq<Item>, others: seq<Item>, post: Post)
    requires Inv(cfg, v) && Leads(cfg, v, u) && post in v.relay.everPosts
    requires forall i :: 0 <= i < |some| ==> some[i].post == post
    ensures AllAttended(some, v) && AllAttended(others, u) ==> AllAttended(some + others, u)
  {
    GoneStaysGone(cfg, v, u);
    if AllAttended(some, v) {
      AllAttendedStay(some, v, u);
    }
  }

  // ---------------------------------------------------------------- the sweep's account

  predicate Undated(v: Verdict) {
    v.StandsUndated? || v.PastTheCeiling?
  }

  predicate DueOn(p: Post, at: I64, clock: Clock) {
    Due(p.about, p.createdAt, clock) <= at
  }

  /** The clock reads no date on the post. */
  predicate CannotBeDated(p: Post, clock: Clock) {
    !(p.about.Some? && p.about.value.expiresAt.Some? && clock(p.about.value.expiresAt.value).Some?)
  }

  lemma VerdictSays(p: Post, at: I64, clock: Clock)
    ensures Undated(VerdictOn(p.about, p.createdAt, at, clock)) <==> CannotBeDated(p, clock)
    ensures Deletes(VerdictOn(p.about, p.createdAt, at, clock)) <==> DueOn(p, at, clock)
  {
    SweptFromItsDueInstant(p.about, p.createdAt, at, at, clock);
  }

  function HowManyUndated(posts: seq<Post>, clock: Clock): nat {
    if posts == [] then 0
    else HowManyUndated(posts[..|posts| - 1], clock) + (if CannotBeDated(posts[|posts| - 1], clock) then 1 else 0)
  }

  function UndatedIds(posts: map<string, Post>, clock: Clock): set<string> {
    set id | id in posts && CannotBeDated(posts[id], clock)
  }

  lemma {:induction false} UndatedAreIds(order: seq<Post>, clock: Clock, ids: set<string>)
    requires DistinctPosts(order)
    requires forall id :: id in ids <==> exists i :: 0 <= i < |order| && order[i].id == id && CannotBeDated(order[i], clock)
    ensures HowManyUndated(order, clock) == |ids|
    decreases |order|
  {
    if order == [] {
      assert ids == {};
    } else {
      var init, last := order[..|order| - 1], order[|order| - 1];
      var before := if CannotBeDated(last, clock) then ids - {last.id} else ids;
      forall id
        ensures id in before <==> exists i :: 0 <= i < |init| && init[i].id == id && CannotBeDated(init[i], clock)
      {
        if i :| 0 <= i < |order| && order[i].id == id && CannotBeDated(order[i], clock) {
          assert i < |init| ==> init[i] == order[i] && id != last.id;
        }
        if i :| 0 <= i < |init| && init[i].id == id && CannotBeDated(init[i], clock) {
          assert order[i] == init[i];
        }
      }
      UndatedAreIds(init, clock, before);
      if CannotBeDated(last, clock) {
        assert order[|init|] == last && last.id in ids && ids == before + {last.id};
      }
    }
  }

  /** Counted post by post, those that cannot be dated are as many as their ids. */
  lemma EveryUndatedCounts(stood: map<string, Post>, order: seq<Post>, clock: Clock)
    requires Enumerates(order, stood) && forall id :: id in stood ==> stood[id].id == id
    ensures HowManyUndated(order, clock) == |UndatedIds(stood, clock)|
  {
    forall id
      ensures id in UndatedIds(stood, clock) <==> exists i :: 0 <= i < |order| && order[i].id == id && CannotBeDated(order[i], clock)
    {
      if id in UndatedIds(stood, clock) {
        var i :| 0 <= i < |order| && order[i] == stood[id];
        assert order[i].id == id;
      }
      if i :| 0 <= i < |order| && order[i].id == id && CannotBeDated(order[i], clock) {
        assert order[i] in order;
      }
    }
    UndatedAreIds(order, clock, UndatedIds(stood, clock));
  }

  lemma UndatedPush(posts: seq<Post>, i: nat, clock: Clock)
    requires i < |posts|
    ensures HowManyUndated(posts[..i + 1], clock) == HowManyUndated(posts[..i], clock) + (if CannotBeDated(posts[i], clock) then 1 else 0)
  {
    assert posts[..i + 1][..i] == posts[..i];
  }

  ghost predicate Swept(posts: seq<Post>, i: nat, at: I64, clock: Clock, w: World) {
    forall j :: 0 <= j < i && j < |posts| && DueOn(posts[j], at, clock) ==> posts[j].id !in w.relay.posts
  }

  /** What the sweep does about the first post it has left. */
  ghost predicate SweptOne(cfg: Config, w: World, v: World, undated: bool, failed: bool) {
    && w.sweeper.Sweeping? && w.sweeper.todo != []
    && var Sweeping(at, todo) := w.sweeper;
      && v.sweeper == (if |todo| == 1 then Asleep else Sweeping(at, todo[1..]))
      && undated == CannotBeDated(todo[0], cfg.clock)
      && (!failed && DueOn(todo[0], at, cfg.clock) ==> todo[0].id !in v.relay.posts)
  }

  /** The pass over `posts` from `w`, its first `i` dealt with. */
  ghost predicate PassSoFar(
      cfg: Config, w: World, v: World, at: I64, posts: seq<Post>, i: nat, undatable: nat, failures: nat)
  {
    && i <= |posts| && Leads(cfg, w, v) && WereWritten(posts, v)
    && v.sweeper == (if i == |posts| then Asleep else Sweeping(at, posts[i..]))
    && undatable == HowManyUndated(posts[..i], cfg.clock)
    && (failures == 0 ==> Swept(posts, i, at, cfg.clock, v))
  }

  lemma PassBegins(cfg: Config, w: World, at: I64, posts: seq<Post>)
    requires Inv(cfg, w) && WereWritten(posts, w)
    requires w.sweeper == if posts == [] then Asleep else Sweeping(at, posts)
    ensures PassSoFar(cfg, w, w, at, posts, 0, 0, 0)
  {
    LeadsNowhere(cfg, w);
    assert posts[0..] == posts && posts[..0] == [];
  }

  lemma PassEnds(cfg: Config, w: World, v: World, at: I64, posts: seq<Post>, undatable: nat, failures: nat)
    requires PassSoFar(cfg, w, v, at, posts, |posts|, undatable, failures)
    ensures Leads(cfg, w, v) && v.sweeper.Asleep?
    ensures undatable == HowManyUndated(posts, cfg.clock)
    ensures failures == 0 ==> Swept(posts, |posts|, at, cfg.clock, v)
  {
    assert posts[..|posts|] == posts;
  }

  lemma SweptStaySwept(posts: seq<Post>, i: nat, at: I64, clock: Clock, w: World, v: World)
    requires Swept(posts, i, at, clock, w) && WereWritten(posts, w) && StaysGone(w, v)
    ensures Swept(posts, i, at, clock, v)
  {
  }

  lemma OneMoreSwept(
      cfg: Config, w: World, v: World, u: World, at: I64, posts: seq<Post>, i: nat, undatable: nat, failures: nat,
      undated: bool, failed: bool)
    requires i < |posts| && PassSoFar(cfg, w, v, at, posts, i, undatable, failures)
    requires Leads(cfg, v, u) && SweptOne(cfg, v, u, undated, failed)
    ensures PassSoFar(cfg, w, u, at, posts, i + 1,
      if undated then undatable + 1 else undatable, if failed then failures + 1 else failures)
  {
    LeadsOn(cfg, w, v, u);
    GoneStaysGone(cfg, v, u);
    UndatedPush(posts, i, cfg.clock);
    assert posts[i..][1..] == posts[i + 1..] && posts[i..][0] == posts[i];
    if failures == 0 {
      SweptStaySwept(posts, i, at, cfg.clock, v, u);
    }
  }

  /** Once the item at hand is asked about, and once it is answered. */
  lemma ApprovalIsAsked(cfg: Config, w: World)
    requires Approves(w)
    ensures var v, Working(seen, spent, todo) := ItemDoes(cfg, w, false), w.decider;
      v.relay == w.relay && v.decider == Asking(seen, spent, todo[0], |w.gateway.runs|, todo[1..])
  {
  }

  lemma RunIsThere(cfg: Config, w: World)
    requires Inv(cfg, w) && w.decider.Asking?
    ensures w.decider.run < |w.gateway.runs|
  {
  }

  lemma ApprovalFollows(cfg: Config, d: Decider, w: World, answer: GatewayAnswer)
    requires Inv(cfg, w) && DeciderCan(cfg, w, GatewayAnswers(answer))
    requires d.Working? && d.todo != [] && d.todo[0].Act?
    requires w.decider == Asking(d.seen, d.spent, d.todo[0], w.decider.run, d.todo[1..])
    ensures var v := AnswerDoes(cfg, w, answer);
      v.relay == w.relay && FollowsFrom(cfg, d, w, answer, v.decider)
  {
    ExpiresSoon(d.todo[0].post.about, w.now, cfg.decision, cfg.clock);
  }

  // ---------------------------------------------------------------- gone for good

  function HowManyGone(posts: seq<Post>, standing: map<string, Post>): nat {
    if posts == [] then 0
    else HowManyGone(posts[..|posts| - 1], standing) + (if posts[|posts| - 1].id !in standing then 1 else 0)
  }

  lemma {:induction false} MoreGone(posts: seq<Post>, w: World, v: World)
    requires StaysGone(w, v) && WereWritten(posts, w)
    ensures HowManyGone(posts, w.relay.posts) <= HowManyGone(posts, v.relay.posts)
  {
    if posts == [] {
    } else {
      MoreGone(posts[..|posts| - 1], w, v);
    }
  }

  lemma GoneGrows(posts: seq<Post>, i: nat, w: World, v: World)
    requires i < |posts| && StaysGone(w, v) && WereWritten(posts, w)
    ensures WereWritten(posts, v)
    ensures HowManyGone(posts[..i], w.relay.posts) + (if posts[i].id !in v.relay.posts then 1 else 0)
         <= HowManyGone(posts[..i + 1], v.relay.posts)
  {
    MoreGone(posts[..i], w, v);
    assert posts[..i + 1][..i] == posts[..i];
  }

  lemma {:induction false} GoneOfParts(cfg: Config, at: I64, posts: seq<Post>, standing: map<string, Post>)
    ensures HowManyGone(Part(cfg, at, posts, false), standing) + HowManyGone(Part(cfg, at, posts, true), standing)
         == HowManyGone(posts, standing)
  {
    if posts == [] {
    } else {
      var init, last := posts[..|posts| - 1], posts[|posts| - 1];
      GoneOfParts(cfg, at, init, standing);
      GoneOfOneMore(Part(cfg, at, init, false), last, standing);
      GoneOfOneMore(Part(cfg, at, init, true), last, standing);
      assert forall expired :: Part(cfg, at, init, expired) + [] == Part(cfg, at, init, expired);
    }
  }

  lemma GoneOfOneMore(posts: seq<Post>, post: Post, standing: map<string, Post>)
    ensures HowManyGone(posts + [post], standing) == HowManyGone(posts, standing) + (if post.id !in standing then 1 else 0)
  {
    assert (posts + [post])[..|posts + [post]| - 1] == posts;
  }

  lemma PartsAreWritten(cfg: Config, at: I64, posts: seq<Post>, w: World)
    requires WereWritten(posts, w) && DistinctPosts(posts)
    ensures WereWritten(Part(cfg, at, posts, false), w) && WereWritten(Part(cfg, at, posts, true), w)
  {
    PartFacts(cfg, at, posts, false);
    PartFacts(cfg, at, posts, true);
  }

  function Ids(posts: seq<Post>): set<string> {
    if posts == [] then {} else Ids(posts[..|posts| - 1]) + {posts[|posts| - 1].id}
  }

  lemma {:induction false} IdsAre(posts: seq<Post>, id: string)
    ensures id in Ids(posts) <==> exists i :: 0 <= i < |posts| && posts[i].id == id
  {
    if posts == [] {
    } else {
      IdsAre(posts[..|posts| - 1], id);
      assert posts[|posts| - 1].id == id || forall i :: 0 <= i < |posts| && posts[i].id == id ==> posts[..|posts| - 1][i].id == id;
    }
  }

  lemma OneMore(ids: set<string>, id: string, standing: set<string>)
    requires id !in ids
    ensures |(ids + {id}) - standing| == |ids - standing| + (if id in standing then 0 else 1)
  {
    assert (ids + {id}) - standing == (ids - standing) + if id in standing then {} else {id};
  }

  /** Counted one by one, the posts that went are as many as the ids that went. */
  lemma {:induction false} GoneAreIds(posts: seq<Post>, standing: map<string, Post>)
    requires DistinctPosts(posts)
    ensures HowManyGone(posts, standing) == |Ids(posts) - standing.Keys|
  {
    if posts == [] {
    } else {
      var init, last := posts[..|posts| - 1], posts[|posts| - 1];
      GoneAreIds(init, standing);
      IdsAre(init, last.id);
      OneMore(Ids(init), last.id, standing.Keys);
    }
  }

  lemma EnumeratedIds(stood: map<string, Post>, posts: seq<Post>, id: string)
    requires Enumerates(posts, stood) && forall id :: id in stood ==> stood[id].id == id
    ensures id in Ids(posts) <==> id in stood
  {
    IdsAre(posts, id);
    if id in stood {
      var i :| 0 <= i < |posts| && posts[i] == stood[id];
      assert posts[i].id == id;
    } else {
      assert forall i :: 0 <= i < |posts| ==> posts[i] in posts;
    }
  }

  lemma EveryGonePostCounts(stood: map<string, Post>, posts: seq<Post>, standing: map<string, Post>)
    requires Enumerates(posts, stood) && forall id :: id in stood ==> stood[id].id == id
    ensures HowManyGone(posts, standing) == |stood.Keys - standing.Keys|
  {
    GoneAreIds(posts, standing);
    forall id
      ensures id in Ids(posts) <==> id in stood.Keys
    {
      EnumeratedIds(stood, posts, id);
    }
    assert Ids(posts) == stood.Keys;
  }

  /** What deciding on all of `posts` comes to: no more of them counted as decided than are
      gone, and nothing left of `items` if nothing failed and nothing was put off. */
  ghost predicate PostsDecided(cfg: Config, w: World, v: World, a: DecisionsTick, b: DecisionsTick, posts: seq<Post>, items: seq<Item>) {
    && Leads(cfg, w, v) && Accounts(a, b, w, v)
    && b.Decided() <= a.Decided() + HowManyGone(posts, v.relay.posts)
    && (Calm(a, b) ==> AllAttended(items, v))
  }

  lemma NothingDecided(cfg: Config, w: World, a: DecisionsTick)
    requires Inv(cfg, w)
    ensures PostsDecided(cfg, w, w, a, a, [], [])
  {
    LeadsNowhere(cfg, w);
  }

  /** One more post dealt with, in the middle of a tick's pass over `posts`. */
  lemma OnePostOn(
      cfg: Config, w: World, v: World, u: World, a: DecisionsTick, b: DecisionsTick, c: DecisionsTick, posts: seq<Post>, i: nat,
      items: seq<Item>, more: seq<Item>)
    requires i < |posts| && Inv(cfg, v) && WereWritten(posts, v)
    requires PostsDecided(cfg, w, v, a, b, posts[..i], items) && PostDecided(cfg, v, u, b, c, posts[i], more)
    requires forall item :: item in items ==> item.post in posts
    ensures PostsDecided(cfg, w, u, a, c, posts[..i + 1], items + more) && WereWritten(posts, u)
  {
    GoneStaysGone(cfg, v, u);
    GoneGrows(posts, i, v, u);
    LeadsOn(cfg, w, v, u);
    AccountsOn(a, b, c, w, v, u);
    if Calm(a, c) {
      AllAttendedStay(items, v, u);
    }
  }

  /** The open posts, then the expired ones. */
  lemma OpenThenExpired(
      cfg: Config, w: World, v: World, u: World, a: DecisionsTick, b: DecisionsTick, c: DecisionsTick, at: I64, posts: seq<Post>,
      items: seq<Item>, more: seq<Item>)
    requires Inv(cfg, v) && WereWritten(Part(cfg, at, posts, false), v)
    requires PostsDecided(cfg, w, v, a, b, Part(cfg, at, posts, false), items)
    requires PostsDecided(cfg, v, u, b, c, Part(cfg, at, posts, true), more)
    requires forall item :: item in items ==> item.post in Part(cfg, at, posts, false)
    ensures PostsDecided(cfg, w, u, a, c, posts, items + more)
  {
    GoneStaysGone(cfg, v, u);
    LeadsOn(cfg, w, v, u);
    AccountsOn(a, b, c, w, v, u);
    MoreGone(Part(cfg, at, posts, false), v, u);
    GoneOfParts(cfg, at, posts, u.relay.posts);
    if Calm(a, c) {
      AllAttendedStay(items, v, u);
    }
  }

  // ---------------------------------------------------------------- the plan, post by post

  function Flat<A, B>(xs: seq<A>, f: A -> seq<B>): seq<B> {
    if xs == [] then [] else Flat(xs[..|xs| - 1], f) + f(xs[|xs| - 1])
  }

  lemma {:induction false} FlatJoin<A, B>(a: seq<A>, b: seq<A>, f: A -> seq<B>)
    ensures Flat(a + b, f) == Flat(a, f) + Flat(b, f)
    decreases |b|
  {
    if b == [] {
      assert a + b == a;
    } else {
      var init, last := b[..|b| - 1], b[|b| - 1];
      FlatJoin(a, init, f);
      assert (a + b)[..|a + b| - 1] == a + init;
    }
  }

  lemma FlatThen<A, B>(xs: seq<A>, i: nat, f: A -> seq<B>, rest: seq<B>)
    requires i < |xs|
    ensures Flat(xs[i..], f) + rest == f(xs[i]) + (Flat(xs[i + 1..], f) + rest)
  {
    FlatJoin([xs[i]], xs[i + 1..], f);
    assert xs[i..] == [xs[i]] + xs[i + 1..];
    assert [xs[i]][..0] == [];
    assert Flat([xs[i]], f) == [] + f(xs[i]);
  }

  function ItemsFor(cfg: Config, expired: bool, seen: seq<Event>, spent: set<string>, told: set<string>): Post -> seq<Item> {
    (post: Post) => ItemsOn(cfg, expired, post, seen, spent, told)
  }

  lemma {:induction false} PlanIsFlat(cfg: Config, expired: bool, posts: seq<Post>, seen: seq<Event>, spent: set<string>, told: set<string>)
    ensures Plan(cfg, expired, posts, seen, spent, told) == Flat(posts, ItemsFor(cfg, expired, seen, spent, told))
  {
    if posts == [] {
    } else {
      PlanIsFlat(cfg, expired, posts[..|posts| - 1], seen, spent, told);
    }
  }

  lemma {:induction false} StrangerItemsAre(post: Post, ds: seq<Decision>)
    ensures |StrangerItems(post, ds)| == |ds|
    ensures forall i :: 0 <= i < |ds| ==> StrangerItems(post, ds)[i] == Stranger(post, ds[i])
  {
    if ds == [] {
    } else {
      StrangerItemsAre(post, ds[..|ds| - 1]);
    }
  }

  lemma FlatUpTo<A, B>(xs: seq<A>, i: nat, f: A -> seq<B>)
    requires i < |xs|
    ensures Flat(xs[..i + 1], f) == Flat(xs[..i], f) + f(xs[i])
  {
    assert xs[..i + 1][..i] == xs[..i];
  }

  lemma {:induction false} FlatPosts(posts: seq<Post>, items: Post -> seq<Item>)
    requires forall p, item :: p in posts && item in items(p) ==> item.post == p
    ensures forall item :: item in Flat(posts, items) ==> item.post in posts
  {
    if posts == [] {
    } else {
      var init, last := posts[..|posts| - 1], posts[|posts| - 1];
      assert posts == init + [last];
      FlatPosts(init, items);
    }
  }

  lemma ItemsAreOnTheirPost(cfg: Config, expired: bool, seen: seq<Event>, spent: set<string>, told: set<string>, post: Post)
    ensures forall item :: item in ItemsOn(cfg, expired, post, seen, spent, told) ==> item.post == post
  {
    StrangerItemsAre(post, Strangers(Undecided(cfg, post, seen, spent)));
  }

  lemma PlanIsOnItsPosts(cfg: Config, expired: bool, posts: seq<Post>, seen: seq<Event>, spent: set<string>, told: set<string>)
    ensures forall item :: item in Plan(cfg, expired, posts, seen, spent, told) ==> item.post in posts
  {
    PlanIsFlat(cfg, expired, posts, seen, spent, told);
    ItemsForAreOnTheirPosts(cfg, expired, seen, spent, told);
    FlatPosts(posts, ItemsFor(cfg, expired, seen, spent, told));
  }

  lemma ItemsForAreOnTheirPosts(cfg: Config, expired: bool, seen: seq<Event>, spent: set<string>, told: set<string>)
    ensures forall p, item :: item in ItemsFor(cfg, expired, seen, spent, told)(p) ==> item.post == p
  {
    forall p
      ensures forall item :: item in ItemsFor(cfg, expired, seen, spent, told)(p) ==> item.post == p
    {
      ItemsAreOnTheirPost(cfg, expired, seen, spent, told, p);
    }
  }

  /** From `w` on, the first `i` of `posts` were decided on, and the rest of the plan is
      still to do. */
  ghost predicate PostsSoFar(
      cfg: Config, w: World, v: World, a: DecisionsTick, b: DecisionsTick, posts: seq<Post>, i: nat, items: Post -> seq<Item>,
      rest: seq<Item>, seen: seq<Event>, spent: set<string>)
  {
    && i <= |posts| && WereWritten(posts, v)
    && PostsDecided(cfg, w, v, a, b, posts[..i], Flat(posts[..i], items))
    && v.decider == Resume(seen, spent, Flat(posts[i..], items) + rest)
  }

  lemma PostsBegin(
      cfg: Config, w: World, a: DecisionsTick, posts: seq<Post>, items: Post -> seq<Item>, rest: seq<Item>, seen: seq<Event>, spent: set<string>)
    requires Inv(cfg, w) && WereWritten(posts, w) && w.decider == Resume(seen, spent, Flat(posts, items) + rest)
    ensures PostsSoFar(cfg, w, w, a, a, posts, 0, items, rest, seen, spent)
  {
    NothingDecided(cfg, w, a);
    assert posts[0..] == posts && posts[..0] == [];
  }

  lemma NextPostOn(
      cfg: Config, w: World, v: World, u: World, a: DecisionsTick, b: DecisionsTick, c: DecisionsTick, posts: seq<Post>, i: nat,
      items: Post -> seq<Item>, rest: seq<Item>, seen: seq<Event>, spent: set<string>)
    requires i < |posts| && Inv(cfg, v) && PostsSoFar(cfg, w, v, a, b, posts, i, items, rest, seen, spent)
    requires PostDecided(cfg, v, u, b, c, posts[i], items(posts[i]))
    requires u.decider == Resume(seen, spent, Flat(posts[i + 1..], items) + rest)
    requires forall p, item :: item in items(p) ==> item.post == p
    ensures PostsSoFar(cfg, w, u, a, c, posts, i + 1, items, rest, seen, spent)
  {
    FlatPosts(posts[..i], items);
    FlatUpTo(posts, i, items);
    OnePostOn(cfg, w, v, u, a, b, c, posts, i, Flat(posts[..i], items), items(posts[i]));
  }

  lemma PostsEnd(
      cfg: Config, w: World, v: World, a: DecisionsTick, b: DecisionsTick, posts: seq<Post>, items: Post -> seq<Item>, rest: seq<Item>,
      seen: seq<Event>, spent: set<string>)
    requires PostsSoFar(cfg, w, v, a, b, posts, |posts|, items, rest, seen, spent)
    ensures PostsDecided(cfg, w, v, a, b, posts, Flat(posts, items)) && v.decider == Resume(seen, spent, rest)
  {
    assert posts[..|posts|] == posts && Flat(posts[|posts|..], items) + rest == rest;
  }

  lemma PlanBegins(
      cfg: Config, w: World, a: DecisionsTick, expired: bool, posts: seq<Post>, rest: seq<Item>, seen: seq<Event>, spent: set<string>, told: set<string>)
    returns (items: Post -> seq<Item>)
    requires Inv(cfg, w) && WereWritten(posts, w)
    requires w.decider == Resume(seen, spent, Plan(cfg, expired, posts, seen, spent, told) + rest)
    ensures items == ItemsFor(cfg, expired, seen, spent, told)
    ensures PostsSoFar(cfg, w, w, a, a, posts, 0, items, rest, seen, spent)
  {
    items := ItemsFor(cfg, expired, seen, spent, told);
    PlanIsFlat(cfg, expired, posts, seen, spent, told);
    PostsBegin(cfg, w, a, posts, items, rest, seen, spent);
  }

  lemma PlanEnds(
      cfg: Config, w: World, v: World, a: DecisionsTick, b: DecisionsTick, expired: bool, posts: seq<Post>, items: Post -> seq<Item>,
      rest: seq<Item>, seen: seq<Event>, spent: set<string>, told: set<string>)
    requires items == ItemsFor(cfg, expired, seen, spent, told)
    requires PostsSoFar(cfg, w, v, a, b, posts, |posts|, items, rest, seen, spent)
    ensures PostsDecided(cfg, w, v, a, b, posts, Plan(cfg, expired, posts, seen, spent, told)) && v.decider == Resume(seen, spent, rest)
  {
    PlanIsFlat(cfg, expired, posts, seen, spent, told);
    PostsEnd(cfg, w, v, a, b, posts, items, rest, seen, spent);
  }

  // ---------------------------------------------------------------- everything on every post

  /** Every stranger's gesture on the post, of those `read` held, is answered, and the
      owner's first undecided one is carried to its end, or was told "revoked", or came too
      late and asked for nothing. */
  ghost predicate NothingLeft(cfg: Config, read: World, v: World, post: Post) {
    forall e, d :: (
      && e in read.relay.gestures && e.genuine && DecisionOf(e, post.id, cfg.owner) == Some(d)
      && !IsSpent(read.relay.answers, e.id) && (d.byOwner ==> Oldest(cfg, read.relay.gestures, read.relay.answers, post, d))) ==>
        || Attended(if d.byOwner then Act(post, d, false) else Stranger(post, d), v)
        || (d.byOwner && d.gesture.Refuse? && PostHasExpired(post.about, read.now, cfg.clock))
  }

  /** A tick whose list is all attended to leaves nothing on any post it read. */
  lemma AllAttendedLeavesNothing(
      cfg: Config, read: World, at: I64, posts: seq<Post>, served: seq<Event>, post: Post, v: World)
    requires GesturesOk(cfg, read.relay) && AnswersRooted(read.relay) && Serves(read.relay, cfg.clerk, posts, served)
    requires at <= read.now && DistinctPosts(posts) && post in posts
    requires Believable(cfg, ByOthers(served, cfg.clerk), read.relay.everGestures)
    requires AllAttended(Todo(cfg, at, posts, ByOthers(served, cfg.clerk), SpentOn(read.relay.answers, posts), ToldOn(read.relay.answers, posts)), v)
    ensures NothingLeft(cfg, read, v, post)
  {
    var seen := ByOthers(served, cfg.clerk);
    forall e, d |
      && e in read.relay.gestures && e.genuine && DecisionOf(e, post.id, cfg.owner) == Some(d)
      && !IsSpent(read.relay.answers, e.id) && (d.byOwner ==> Oldest(cfg, read.relay.gestures, read.relay.answers, post, d))
      ensures
        || Attended(if d.byOwner then Act(post, d, false) else Stranger(post, d), v)
        || (d.byOwner && d.gesture.Refuse? && PostHasExpired(post.about, read.now, cfg.clock))
    {
      ServedIsFirst(cfg, read.relay, read.relay.answers, posts, served, post, e, d);
      var owed := Owed(cfg, at, post, d, IsToldRevoked(read.relay.answers, d.gestureId));
      if owed.Some? {
        TodoHasOwed(cfg, read.relay, at, posts, seen, post, d);
        assert Attended(owed.value, v);
      }
    }
  }

  // ---------------------------------------------------------------- one tick, from its reads to its end

  /** What a tick that has read everything sets out to do. */
  function TodoAt(cfg: Config, w: World): seq<Item>
    requires w.decider.Seen?
  {
    var Seen(at, posts, seen) := w.decider;
    Todo(cfg, at, posts, seen, SpentOn(w.relay.answers, posts), ToldOn(w.relay.answers, posts))
  }

  /** The gestures were read at `at`, the others having moved since `w`. */
  ghost predicate GesturesReadAt(cfg: Config, w: World, at: World, v: World, served: seq<Event>) {
    && w.decider.Read? && Leads(cfg, w, at) && at.decider == w.decider && at.relay.answers == w.relay.answers
    && Serves(at.relay, cfg.clerk, w.decider.posts, served)
    && DeciderCan(cfg, at, ReadGestures(served)) && v == DeciderDoes(cfg, at, ReadGestures(served))
    && Leads(cfg, at, v)
  }

  lemma AnswersNameGestures(r: RelayState)
    requires AnswersRooted(r) && IdsAreHashes(r.everGestures)
    ensures forall i :: 0 <= i < |r.answers| ==> r.answers[i].gesture != ""
  {
    forall i | 0 <= i < |r.answers|
      ensures r.answers[i].gesture != ""
    {
      assert Rooted(r.answers[i], r.everGestures);
    }
  }

  lemma DecidedAfter(
      cfg: Config, w: World, v: World, u: World, a: DecisionsTick, b: DecisionsTick, posts: seq<Post>, items: seq<Item>)
    requires Leads(cfg, w, v) && v.relay.answers == w.relay.answers && PostsDecided(cfg, v, u, a, b, posts, items)
    ensures PostsDecided(cfg, w, u, a, b, posts, items)
  {
    LeadsOn(cfg, w, v, u);
  }

  lemma NoneDecided(cfg: Config, w: World, v: World, posts: seq<Post>)
    requires Leads(cfg, w, v) && v.relay.answers == w.relay.answers
    ensures PostsDecided(cfg, w, v, NO_TICK, NO_TICK, posts, [])
  {
  }

  lemma TickFailed(cfg: Config, w: World, v: World, u: World, posts: seq<Post>, items: seq<Item>)
    requires Leads(cfg, w, v) && v.relay.answers == w.relay.answers && Leads(cfg, v, u) && u.relay.answers == v.relay.answers
    ensures PostsDecided(cfg, w, u, NO_TICK, NO_TICK.(failures := 1), posts, items)
  {
    LeadsOn(cfg, w, v, u);
  }

  lemma NoPostsStand(w: World, posts: seq<Post>)
    requires Enumerates(posts, w.relay.posts) && posts == []
    ensures w.relay.posts == map[]
  {
  }

  lemma ReadIsOk(cfg: Config, at: World)
    requires Inv(cfg, at) && at.decider.Read?
    ensures GesturesOk(cfg, at.relay) && AnswersRooted(at.relay) && DistinctPosts(at.decider.posts)
  {
  }

  lemma NothingSeenHere(cfg: Config, at: World, posts: seq<Post>, served: seq<Event>, post: Post, v: World)
    requires GesturesOk(cfg, at.relay) && Serves(at.relay, cfg.clerk, posts, served) && post in posts
    requires ByOthers(served, cfg.clerk) == []
    ensures NothingLeft(cfg, at, v, post)
  {
    forall e | e in at.relay.gestures && e.genuine
      ensures DecisionOf(e, post.id, cfg.owner).None?
    {
      assert Targets(e, post.id) ==> e in served && e in ByOthers(served, cfg.clerk);
    }
  }

  lemma NothingToSee(cfg: Config, w: World, at: World, v: World, served: seq<Event>)
    requires GesturesReadAt(cfg, w, at, v, served) && v.decider.Waiting?
    ensures PostsDecided(cfg, w, v, NO_TICK, NO_TICK, w.decider.posts, [])
    ensures forall post :: post in w.decider.posts ==> NothingLeft(cfg, at, v, post)
  {
    ReadIsOk(cfg, at);
    LeadsOn(cfg, w, at, v);
    NoneDecided(cfg, w, v, w.decider.posts);
    forall post | post in w.decider.posts
      ensures NothingLeft(cfg, at, v, post)
    {
      NothingSeenHere(cfg, at, w.decider.posts, served, post, v);
    }
  }

  /** A tick that read its gestures at `at` and then did all that was to do. */
  lemma TickLeavesNothing(cfg: Config, w: World, at: World, v: World, u: World, served: seq<Event>, tick: DecisionsTick)
    requires GesturesReadAt(cfg, w, at, v, served) && v.decider.Seen? && w.decider.at <= w.now && Inv(cfg, w)
    requires PostsDecided(cfg, v, u, NO_TICK, tick, w.decider.posts, TodoAt(cfg, v))
    ensures PostsDecided(cfg, w, u, NO_TICK, tick, w.decider.posts, [])
    ensures Leads(cfg, at, u)
    ensures Calm(NO_TICK, tick) ==> forall post :: post in w.decider.posts ==> NothingLeft(cfg, at, u, post)
  {
    LeadsOn(cfg, at, v, u);
    LeadsOn(cfg, w, at, u);
    GoneStaysGone(cfg, w, at);
    ReadIsOk(cfg, at);
    SeenIsOk(cfg, v);
    if Calm(NO_TICK, tick) {
      forall post | post in w.decider.posts
        ensures NothingLeft(cfg, at, u, post)
      {
        AllAttendedLeavesNothing(cfg, at, w.decider.at, w.decider.posts, served, post, u);
      }
    }
  }

  lemma {:induction false} AsManyPosts(posts: map<string, Post>, ids: set<string>)
    requires ids <= posts.Keys && forall id :: id in ids ==> posts[id].id == id
    ensures |set id | id in ids :: posts[id]| == |ids|
  {
    if ids == {} {
    } else {
      var id :| id in ids;
      var rest := ids - {id};
      AsManyPosts(posts, rest);
      assert (set i | i in ids :: posts[i]) == (set i | i in rest :: posts[i]) + {posts[id]};
      assert posts[id] !in set i | i in rest :: posts[i];
    }
  }

  lemma Together<T>(a: set<T>, b: set<T>)
    requires a !! b
    ensures |a + b| == |a| + |b|
  {
  }

  lemma NewlyGone(w: World, v: World)
    requires PostsOk(w.relay) && StaysGone(w, v)
    ensures |w.relay.posts.Keys - v.relay.posts.Keys| + |Gone(w.relay)| <= |Gone(v.relay)|
  {
    var ids := w.relay.posts.Keys - v.relay.posts.Keys;
    var newly := set id | id in ids :: w.relay.posts[id];
    AsManyPosts(w.relay.posts, ids);
    assert newly !! Gone(w.relay);
    Together(newly, Gone(w.relay));
    forall p | p in newly
      ensures p in Gone(v.relay)
    {
      var id :| id in ids && p == w.relay.posts[id];
    }
    Smaller(newly + Gone(w.relay), Gone(v.relay));
  }

  /** What a tick amounts to. What it counts is what the relay shows: an answer there for
      every one counted, none there that is not counted, and a post gone for every one
      decided. And if it counts no failure and puts nothing off it leaves nothing undone on
      any post that stood when it began. */
  ghost predicate TickDone(cfg: Config, w: World, read: World, v: World, tick: DecisionsTick) {
    && Leads(cfg, w, v) && v.decider.Waiting? && Accounts(NO_TICK, tick, w, v)
    && tick.Decided() <= |w.relay.posts.Keys - v.relay.posts.Keys|
    && (Calm(NO_TICK, tick) ==>
        Leads(cfg, w, read) && Leads(cfg, read, v)
        && forall id :: id in w.relay.posts ==> NothingLeft(cfg, read, v, w.relay.posts[id]))
  }

  lemma TickFailsAtOnce(cfg: Config, w: World)
    requires Inv(cfg, w) && w.decider.Waiting?
    ensures TickDone(cfg, w, w, w, NO_TICK.(failures := 1))
  {
    LeadsNowhere(cfg, w);
  }

  lemma TickHasNoPosts(cfg: Config, w: World, v: World)
    requires Inv(cfg, w) && Enumerates([], w.relay.posts) && Leads(cfg, w, v) && v.relay == w.relay && v.decider.Waiting?
    ensures TickDone(cfg, w, w, v, NO_TICK)
  {
    LeadsNowhere(cfg, w);
    NoPostsStand(w, []);
  }

  lemma TickIsOver(cfg: Config, w: World, v: World, read: World, u: World, tick: DecisionsTick, posts: seq<Post>)
    requires Inv(cfg, w) && Enumerates(posts, w.relay.posts) && Leads(cfg, w, v) && v.relay == w.relay && u.decider.Waiting?
    requires PostsDecided(cfg, v, u, NO_TICK, tick, posts, [])
    requires Calm(NO_TICK, tick) ==>
      Leads(cfg, v, read) && Leads(cfg, read, u) && forall post :: post in posts ==> NothingLeft(cfg, read, u, post)
    ensures TickDone(cfg, w, read, u, tick)
  {
    LeadsOn(cfg, w, v, u);
    EveryGonePostCounts(w.relay.posts, posts, u.relay.posts);
    if Calm(NO_TICK, tick) {
      LeadsOn(cfg, w, v, read);
    }
  }

  /** A tick that did anything and failed at nothing did something for good; one that did
      nothing changed no answer. */
  lemma TickIsProgress(cfg: Config, w: World, read: World, v: World, tick: DecisionsTick)
    requires Inv(cfg, w) && TickDone(cfg, w, read, v, tick)
    ensures Done(w.relay) + tick.answered + tick.Decided() <= Done(v.relay)
    ensures tick.Happened() && Calm(NO_TICK, tick) ==> Done(w.relay) < Done(v.relay)
    ensures !tick.Happened() ==> v.relay.answers == w.relay.answers
  {
    GoneStaysGone(cfg, w, v);
    NewlyGone(w, v);
  }

  // ---------------------------------------------------------------- turn after turn

  /** The turn began and ended between the two worlds, and ended with the session as in the
      later one. */
  predicate TurnBetween(w: World, t: Turn, v: World) {
    w.now <= t.start <= t.end == v.now && t.session == v.session
  }

  /** The turns follow on each other, from `w` on to `v`. */
  predicate InOrder(w: World, history: seq<Turn>, v: World) {
    && (forall i :: 0 <= i < |history| ==> w.now <= history[i].start <= history[i].end <= v.now)
    && (forall i :: 0 < i < |history| ==> history[i - 1].end <= history[i].start)
    && (history != [] ==> history[|history| - 1].session == v.session)
  }

  lemma TurnOn(
      w: World, v: World, u: World, history: seq<Turn>, deadlines: seq<int>, retry: nat, t: Turn, next: int)
    requires w.now <= v.now <= u.now && InOrder(w, history, v) && TurnBetween(v, t, u)
    requires Scheduled(deadlines, history, retry) && next == DeadlineAfter(deadlines[|history|], t, retry)
    ensures Scheduled(deadlines + [next], history + [t], retry) && InOrder(w, history + [t], u)
  {
  }

  // ---------------------------------------------------------------- tick after tick

  /** A tick from one world to another, with the requests `from` up to `to` and the calls
      `fromCall` up to `toCall`. */
  datatype Ticked = Ticked(before: World, after: World, tick: DecisionsTick, from: nat, to: nat, fromCall: nat, toCall: nat)
  {
    /** It did something, and failed at and put off nothing. */
    predicate IsBusy() {
      tick.Happened() && tick.failures == 0 && tick.deferred == 0
    }
  }

  /** Its account is right: what it did is done, and what failed or was put off is what the
      requests and the calls were. */
  ghost predicate IsTicked(cfg: Config, requests: nat -> Request, t: Ticked) {
    && t.from <= t.to && t.fromCall <= t.toCall
    && t.tick.failures == Failures(requests, t.from, t.to) && t.tick.deferred <= t.toCall - t.fromCall
    && exists read :: TickDone(cfg, t.before, read, t.after, t.tick)
  }

  /** So are all of them, and they follow on each other. */
  ghost predicate AllTicked(cfg: Config, requests: nat -> Request, ticks: seq<Ticked>, from: nat, to: nat, fromCall: nat, toCall: nat) {
    && from <= to && fromCall <= toCall
    && (forall i :: 0 <= i < |ticks| ==> IsTicked(cfg, requests, ticks[i]))
    && InTurn(ticks, from, to, fromCall, toCall)
  }

  predicate InTurn(ticks: seq<Ticked>, from: nat, to: nat, fromCall: nat, toCall: nat) {
    && (forall i :: 0 <= i < |ticks| ==> from <= ticks[i].from && ticks[i].to <= to && fromCall <= ticks[i].fromCall && ticks[i].toCall <= toCall)
    && forall i, j :: 0 <= i < j < |ticks| ==> ticks[i].to <= ticks[j].from && ticks[i].toCall <= ticks[j].fromCall
  }

  function HowManyBusy(ticks: seq<Ticked>): nat {
    if ticks == [] then 0 else HowManyBusy(ticks[..|ticks| - 1]) + (if ticks[|ticks| - 1].IsBusy() then 1 else 0)
  }

  lemma OneMoreTicked(
      cfg: Config, requests: nat -> Request, ticks: seq<Ticked>, t: Ticked, from: nat, mid: nat, to: nat, fromCall: nat, midCall: nat, toCall: nat)
    requires AllTicked(cfg, requests, ticks, from, mid, fromCall, midCall) && IsTicked(cfg, requests, t)
    requires mid <= t.from && t.to == to && midCall <= t.fromCall && t.toCall == toCall
    ensures AllTicked(cfg, requests, ticks + [t], from, to, fromCall, toCall)
    ensures HowManyBusy(ticks + [t]) == HowManyBusy(ticks) + (if t.IsBusy() then 1 else 0)
  {
    assert (ticks + [t])[..|ticks|] == ticks;
    assert t.from <= t.to && t.fromCall <= t.toCall;
    FollowOn(ticks, t, from, mid, fromCall, midCall);
    forall i | 0 <= i < |ticks + [t]|
      ensures IsTicked(cfg, requests, (ticks + [t])[i])
    {
      assert i < |ticks| ==> IsTicked(cfg, requests, ticks[i]);
    }
  }

  lemma FollowOn(ticks: seq<Ticked>, t: Ticked, from: nat, mid: nat, fromCall: nat, midCall: nat)
    requires InTurn(ticks, from, mid, fromCall, midCall)
    requires mid <= t.from <= t.to && midCall <= t.fromCall <= t.toCall && from <= mid && fromCall <= midCall
    ensures InTurn(ticks + [t], from, t.to, fromCall, t.toCall)
  {
  }


  lemma TickIsOne(cfg: Config, requests: nat -> Request, read: World, t: Ticked)
    requires Inv(cfg, t.before) && t.from <= t.to && t.fromCall <= t.toCall && TickDone(cfg, t.before, read, t.after, t.tick)
    requires t.tick.failures == Failures(requests, t.from, t.to) && t.tick.deferred <= t.toCall - t.fromCall
    ensures IsTicked(cfg, requests, t)
    ensures Done(t.after.relay) >= Done(t.before.relay) + (if t.IsBusy() then 1 else 0)
  {
    TickIsProgress(cfg, t.before, read, t.after, t.tick);
    GoneStaysGone(cfg, t.before, t.after);
  }

  /** The loop after `turn` turns. */
  ghost predicate LoopSoFar(
      cfg: Config, requests: nat -> Request, w: World, v: World, history: seq<Turn>, deadlines: seq<int>, ticks: seq<Ticked>, busy: nat,
      next: int, retry: nat, turn: nat, from: nat, to: nat, fromCall: nat, toCall: nat)
  {
    && v.decider.Waiting? && |history| == turn
    && TurnsSoFar(cfg, w, v, history, deadlines, next, retry) && TicksSoFar(w, v, ticks, turn, busy)
    && AllTicked(cfg, requests, ticks, from, to, fromCall, toCall)
  }

  lemma LoopBegins(cfg: Config, requests: nat -> Request, w: World, next: int, retry: nat, from: nat, fromCall: nat)
    requires Inv(cfg, w) && w.decider.Waiting? && next == w.now
    ensures LoopSoFar(cfg, requests, w, w, [], [next], [], 0, next, retry, 0, from, from, fromCall, fromCall)
  {
    LeadsNowhere(cfg, w);
  }

  /** The loop's turns from `w` to `v`, the next refresh due at `next`. */
  ghost predicate TurnsSoFar(cfg: Config, w: World, v: World, history: seq<Turn>, deadlines: seq<int>, next: int, retry: nat) {
    && Leads(cfg, w, v) && Scheduled(deadlines, history, retry)
    && deadlines[|history|] == next && deadlines[0] == w.now && InOrder(w, history, v)
  }

  lemma OneTurnOn(
      cfg: Config, w: World, v: World, u: World, history: seq<Turn>, deadlines: seq<int>, next: int, retry: nat, t: Turn, deadline: int)
    requires Inv(cfg, w) && TurnsSoFar(cfg, w, v, history, deadlines, next, retry) && Leads(cfg, v, u)
    requires TurnBetween(v, t, u) && deadline == DeadlineAfter(next, t, retry)
    ensures TurnsSoFar(cfg, w, u, history + [t], deadlines + [deadline], deadline, retry)
  {
    LeadsOn(cfg, w, v, u);
    GoneStaysGone(cfg, w, v);
    GoneStaysGone(cfg, v, u);
    TurnOn(w, v, u, history, deadlines, retry, t, deadline);
  }

  /** Its ticks, one a turn, `busy` of them busy. */
  predicate TicksSoFar(w: World, v: World, ticks: seq<Ticked>, turn: nat, busy: nat) {
    |ticks| == turn && busy == HowManyBusy(ticks) && busy + Done(w.relay) <= Done(v.relay)
  }

  lemma LoopEnds(
      cfg: Config, requests: nat -> Request, w: World, v: World, history: seq<Turn>, deadlines: seq<int>, ticks: seq<Ticked>, busy: nat,
      next: int, retry: nat, turns: nat, from: nat, to: nat, fromCall: nat, toCall: nat)
    requires LoopSoFar(cfg, requests, w, v, history, deadlines, ticks, busy, next, retry, turns, from, to, fromCall, toCall)
    ensures Leads(cfg, w, v) && v.decider.Waiting? && busy == HowManyBusy(ticks) && busy + Done(w.relay) <= Done(v.relay)
    ensures |history| == turns && Scheduled(deadlines, history, retry) && deadlines[0] == w.now && InOrder(w, history, v)
    ensures |ticks| == turns && AllTicked(cfg, requests, ticks, from, to, fromCall, toCall)
  {
  }

  lemma BusyIsBounded(cfg: Config, w: World, v: World, busy: nat)
    requires Inv(cfg, v) && busy + Done(w.relay) <= Done(v.relay)
    ensures busy <= 2 * |GestureIds(v.relay.everGestures)| + |v.relay.everPosts|
  {
    DoneIsBounded(cfg, v);
  }

  lemma RetriesCome(deadlines: seq<int>, turns: seq<Turn>, retry: nat)
    requires Scheduled(deadlines, turns, retry)
    ensures |turns| >= 2 && AllDead(turns) && turns[|turns| - 1].start >= turns[0].end + retry ==>
      exists i :: 0 < i < |turns| && Refreshes(deadlines[i], turns[i])
  {
    if |turns| >= 2 && AllDead(turns) && turns[|turns| - 1].start >= turns[0].end + retry {
      ARetryComes(deadlines, turns, retry);
    }
  }

}

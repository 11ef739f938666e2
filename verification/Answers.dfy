/** What the clerk says in a thread is true: over every run, each answer traced back to what
    it is about. */
module Answering {
  import opened Strings
  import opened R = Reference
  import opened Relay
  import opened Decisions
  import opened Schedule
  import opened Thread
  import opened Carry
  import opened Protocol
  import opened Safety
  import opened Histories
  import opened Approvals

  // ---------------------------------------------------------------- the Gateway's answer, heeded

  /** Dated, and with no more left than the loop's interval and ten seconds. */
  predicate AboutToExpire(about: Option<Reference>, now: I64, decision: nat, clock: Clock) {
    && about.Some? && about.value.expiresAt.Some? && clock(about.value.expiresAt.value).Some?
    && (clock(about.value.expiresAt.value).value - now <= decision + 10 || I64_MAX <= decision + 10)
  }

  /** What each answer of the Gateway's leads to. An answer to be tried again, or none that
      can be used, leaves the gesture unspent and goes on to the next item, unless the post is
      about to expire: then the owner is told. */
  lemma AnswerIsHeeded(cfg: Config, w: World, answer: GatewayAnswer)
    requires Inv(cfg, w) && DeciderCan(cfg, w, GatewayAnswers(answer))
    ensures var v, Asking(seen, spent, item, run, todo) := Do(cfg, w, GatewayAnswers(answer)), w.decider;
      && v.relay == w.relay && !IsSpent(v.relay.answers, item.d.gestureId)
      && v.session == (if answer.Unauthenticated? then Dead else w.session)
      && v.decider == match answer
        case Approved(_) => Deleting(seen, spent, item, todo)
        case Refused(SentUnrecorded) => Deleting(seen, spent, item, todo)
        case Refused(Final) => Saying(seen, spent, item, Reply.Refused, todo)
        case Unauthenticated =>
          if IsToldRevoked(w.relay.answers, item.d.gestureId) then Resume(seen, spent, todo) else Saying(seen, spent, item, Revoked, todo)
        case _ =>
          if AboutToExpire(item.post.about, w.now, cfg.decision, cfg.clock) then Saying(seen, spent, item, NotRecorded, todo)
          else Resume(seen, spent, todo)
  {
    ExpiresSoon(w.decider.item.post.about, w.now, cfg.decision, cfg.clock);
    assert w.decider.item in Pending(w.decider);
  }

  // ---------------------------------------------------------------- why a reply is said

  /** The Gateway's answer asked for the reply. */
  predicate AsksFor(cfg: Config, now: I64, item: Item, answer: GatewayAnswer, reply: Reply) {
    match reply
    case Refused => answer == GatewayAnswer.Refused(Final)
    case Revoked => answer.Unauthenticated?
    case NotRecorded =>
      && (answer.NoUsableAnswer? || answer == GatewayAnswer.Refused(TryAgain))
      && AboutToExpire(item.post.about, now, cfg.decision, cfg.clock)
    case _ => false
  }

  /** Step `m` of the run heard it. */
  ghost predicate HeardAt(cfg: Config, w: World, steps: seq<Step>, m: nat, item: Item, reply: Reply) {
    && m < |steps| && steps[m].GatewayAnswers?
    && var x := After(cfg, w, steps, m);
      x.decider.Asking? && x.decider.item == item && AsksFor(cfg, x.now, item, steps[m].answer, reply)
  }

  lemma HeardStays(cfg: Config, w: World, init: seq<Step>, s: Step, m: nat, item: Item, reply: Reply)
    requires HeardAt(cfg, w, init, m, item, reply)
    ensures HeardAt(cfg, w, init + [s], m, item, reply)
  {
    assert (init + [s])[..|init|] == init;
    PrefixOf(cfg, w, init + [s], |init|, m);
  }

  /** A reply waits to be said only because an answer just asked for it. */
  lemma SayingComes(cfg: Config, u: World, s: Step)
    requires Inv(cfg, u) && Can(cfg, u, s) && Do(cfg, u, s).decider.Saying?
    ensures var v := Do(cfg, u, s);
      || v.decider == u.decider
      || (u.decider.Asking? && s.GatewayAnswers? && v.decider.item == u.decider.item
          && AsksFor(cfg, u.now, u.decider.item, s.answer, v.decider.reply))
  {
    if !DeciderCan(cfg, u, s) {
      OthersLeaveTheLoop(cfg, u, s);
    } else if s.GatewayAnswers? {
      AnswerIsHeeded(cfg, u, s.answer);
    }
  }

  lemma {:induction false} SaidBecause(cfg: Config, w: World, steps: seq<Step>, v: World) returns (m: nat)
    requires Inv(cfg, w) && w.decider.Waiting? && Run(cfg, w, steps) == Some(v) && v.decider.Saying?
    ensures HeardAt(cfg, w, steps, m, v.decider.item, v.decider.reply)
    decreases |steps|
  {
    var init, last := steps[..|steps| - 1], steps[|steps| - 1];
    assert steps == init + [last];
    var u := Run(cfg, w, init).value;
    RunKeeps(cfg, w, init);
    SayingComes(cfg, u, last);
    if v.decider == u.decider {
      m := SaidBecause(cfg, w, init, u);
      HeardStays(cfg, w, init, last, m, v.decider.item, v.decider.reply);
    } else {
      m := |init|;
    }
  }

  // ---------------------------------------------------------------- each answer

  /** The step says `reply` about the item at hand. */
  predicate Says(w: World, s: Step, reply: Reply) {
    Pending(w.decider) != [] &&
    var item := Pending(w.decider)[0];
    match s
    case NextItem(_) =>
      || (item.Stranger? && reply == NotTheOwner)
      || (item.Late? && reply == Reply.Expired)
      || (item.Act? && item.post.about.Some? && !item.d.gesture.Refuse? && !item.told && w.session.Dead? && reply == Revoked)
    case SayInThread(_) => w.decider.Saying? && reply == w.decider.reply
    case _ => false
  }

  function ReplyAtOnce(item: Item): Reply {
    match item
    case Stranger(_, _) => NotTheOwner
    case Late(_, _) => Reply.Expired
    case Act(_, _, _) => Revoked
  }

  lemma ItemAnswers(cfg: Config, w: World, took: bool)
    requires w.decider.Working? && w.decider.todo != []
    ensures var r, item := ItemDoes(cfg, w, took).relay, w.decider.todo[0];
      || r.answers == w.relay.answers
      || (Says(w, NextItem(took), ReplyAtOnce(item))
          && r.answers == w.relay.answers + [Answer(item.post.id, item.d.gestureId, ReplyAtOnce(item))])
  {
  }

  /** What a step makes of the answers. */
  lemma AnswersStep(cfg: Config, w: World, s: Step)
    requires Can(cfg, w, s)
    ensures var answers, more := w.relay.answers, Do(cfg, w, s).relay.answers;
      more == answers || (more == answers + [more[|answers|]] && SaysIt(w, s, more[|answers|]))
  {
    if !DeciderCan(cfg, w, s) {
      OthersAnswerNothing(cfg, w, s);
    } else if s.NextItem? {
      ItemAnswers(cfg, w, s.took);
    } else if s.SayInThread? {
      assert Says(w, s, w.decider.reply);
    }
  }

  predicate SaysIt(w: World, s: Step, a: Answer) {
    Says(w, s, a.reply) && a == Answer(Pending(w.decider)[0].post.id, Pending(w.decider)[0].d.gestureId, a.reply)
  }

  lemma OthersAnswerNothing(cfg: Config, w: World, s: Step)
    requires Can(cfg, w, s) && !DeciderCan(cfg, w, s)
    ensures Do(cfg, w, s).relay.answers == w.relay.answers
  {
  }

  lemma NewAnswer(cfg: Config, u: World, s: Step, k: nat)
    requires Can(cfg, u, s) && k < |Do(cfg, u, s).relay.answers|
    ensures var answers, more := u.relay.answers, Do(cfg, u, s).relay.answers;
      if k < |answers| then more[k] == answers[k] else k == |answers| && SaysIt(u, s, more[k])
  {
    AnswersStep(cfg, u, s);
  }

  lemma {:induction false} AnswerMade(cfg: Config, w: World, steps: seq<Step>, v: World, k: nat) returns (n: nat)
    requires w.relay.answers == [] && Run(cfg, w, steps) == Some(v) && k < |v.relay.answers|
    ensures n < |steps|
    ensures |After(cfg, w, steps, n).relay.answers| == k && SaysIt(After(cfg, w, steps, n), steps[n], v.relay.answers[k])
    decreases |steps|
  {
    var init, last := steps[..|steps| - 1], steps[|steps| - 1];
    var u := Run(cfg, w, init).value;
    assert steps[..|init|] == init && After(cfg, w, steps, |init|) == u && v == Do(cfg, u, last);
    NewAnswer(cfg, u, last, k);
    if k < |u.relay.answers| {
      n := AnswerMade(cfg, w, init, u, k);
      PrefixOf(cfg, w, steps, |init|, n);
    } else {
      n := |init|;
    }
  }

  /** Behind an item is one event somebody made on its post. */
  lemma GestureBehind(cfg: Config, w: World, item: Item) returns (e: Event)
    requires Inv(cfg, w) && item in Pending(w.decider)
    ensures e in w.relay.everGestures && e.genuine && e.id == item.d.gestureId && Targets(e, item.post.id)
    ensures item.post in w.relay.everPosts && !IsSpent(w.relay.answers, e.id)
    ensures item.Stranger? <==> e.pubkey != cfg.owner
    ensures item.d.gesture.Refuse? <==> SaysNo(Trim(e.content))
  {
    var seen, spent := w.decider.seen, w.decider.spent;
    UndecidedFacts(cfg, item.post, seen, spent);
    DecisionsOnFacts(item.post.id, cfg.owner, seen);
    FirstByOwnerFacts(Undecided(cfg, item.post, seen, spent));
    e :| e in seen && DecisionOf(e, item.post.id, cfg.owner) == Some(item.d);
    DecisionMeans(e, item.post.id, cfg.owner, item.d);
  }

  /** The answer is about `item` and the gesture `e`, which was on its post and had had no
      answer that spent it. */
  ghost predicate About(cfg: Config, x: World, a: Answer, item: Item, e: Event) {
    && item.post in x.relay.everPosts && item.post.id == a.post && item.post.about == Parse(item.post.content)
    && e in x.relay.everGestures && e.genuine && e.id == a.gesture && Targets(e, a.post)
    && !IsSpent(x.relay.answers, e.id)
  }

  /** Who is told so, and what of. */
  ghost predicate IsTrueOf(cfg: Config, x: World, item: Item, e: Event, reply: Reply) {
    && (reply == NotTheOwner <==> e.pubkey != cfg.owner)
    && (reply != NotTheOwner ==> !SaysNo(Trim(e.content)))
    && (reply == Reply.Expired ==> PostHasExpired(item.post.about, x.now, cfg.clock))
    && (reply == Revoked ==> !IsToldRevoked(x.relay.answers, e.id))
  }

  lemma SaidIsTrue(cfg: Config, x: World, s: Step, item: Item, a: Answer) returns (e: Event)
    requires Inv(cfg, x) && Says(x, s, a.reply) && item == Pending(x.decider)[0]
    requires a == Answer(item.post.id, item.d.gestureId, a.reply)
    requires item.Late? ==> PostHasExpired(item.post.about, x.now, cfg.clock) && !item.d.gesture.Refuse?
    requires x.decider.Saying? ==> !item.d.gesture.Refuse? && !a.reply.NotTheOwner? && !a.reply.Expired?
    ensures About(cfg, x, a, item, e) && IsTrueOf(cfg, x, item, e, a.reply)
    ensures !x.decider.Saying? && a.reply.Revoked? ==> x.session.Dead?
    ensures a.reply.Refused? || a.reply.NotRecorded? ==> x.decider.Saying?
  {
    assert item in Pending(x.decider);
    ItemSays(cfg, x, item);
    e := GestureBehind(cfg, x, item);
  }

  /** Every answer the clerk ever wrote, in every run. "Only the owner" is said to another
      key's gesture; "expired" to the owner's, when it was no refusal and the post's expiry had
      passed; "refused" when the Gateway said no for good; "not recorded" when it had not
      answered usably with the post about to expire; "revoked" when the session was believed
      dead or had just been refused, and once. */
  lemma EveryAnswerIsTrue(cfg: Config, now: I64, steps: seq<Step>, w: World, k: nat)
    returns (n: nat, m: nat, item: Item, e: Event)
    requires Run(cfg, Start(now), steps) == Some(w) && k < |w.relay.answers|
    ensures n < |steps|
    ensures var x, a := After(cfg, Start(now), steps, n), w.relay.answers[k];
      && |x.relay.answers| == k && About(cfg, x, a, item, e) && IsTrueOf(cfg, x, item, e, a.reply)
      && (a.reply == Reply.Refused || a.reply == NotRecorded || (a.reply == Revoked && x.session.Alive?) ==>
          m < n && HeardAt(cfg, Start(now), steps, m, item, a.reply))
  {
    n := AnswerMade(cfg, Start(now), steps, w, k);
    var x := After(cfg, Start(now), steps, n);
    PrefixRuns(cfg, Start(now), steps, n);
    StartIsOk(cfg, now);
    HoldsAfter(cfg, Start(now), steps, n);
    item := Pending(x.decider)[0];
    LateStaysLate(cfg, Start(now), steps[..n], x, item);
    m := 0;
    if x.decider.Saying? {
      m := WhySaid(cfg, Start(now), steps, n, x);
    }
    e := SaidIsTrue(cfg, x, steps[n], item, w.relay.answers[k]);
  }

  lemma WhySaid(cfg: Config, w: World, steps: seq<Step>, n: nat, x: World) returns (m: nat)
    requires Inv(cfg, w) && w.decider.Waiting? && n <= |steps| && Run(cfg, w, steps[..n]) == Some(x) && x.decider.Saying?
    ensures m < n && HeardAt(cfg, w, steps, m, x.decider.item, x.decider.reply)
    ensures !x.decider.item.d.gesture.Refuse? && !x.decider.reply.NotTheOwner? && !x.decider.reply.Expired?
  {
    m := SaidBecause(cfg, w, steps[..n], x);
    PrefixOf(cfg, w, steps, n, m);
    PrefixRuns(cfg, w, steps[..n], m);
    HoldsAfter(cfg, w, steps[..n], m);
  }

  /** A post that had expired when the tick read the clock has expired. */
  lemma LateStaysLate(cfg: Config, w: World, steps: seq<Step>, x: World, item: Item)
    requires Inv(cfg, w) && w.decider.Waiting? && Run(cfg, w, steps) == Some(x) && Pending(x.decider) != [] && item == Pending(x.decider)[0]
    ensures item.Late? ==> PostHasExpired(item.post.about, x.now, cfg.clock) && !item.d.gesture.Refuse?
  {
    var i, j := TickOrigin(cfg, w, steps, x);
    GoesOn(cfg, w, steps, i, |steps|);
    Ends(cfg, w, steps, x);
  }
}

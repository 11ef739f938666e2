/** Silence-freedom, over runs: what a tick sets out to do, that it does it, and that the
    owner's approval of a dated post is carried or answered before the sweep may take the
    post down. */
module Silence {
  import opened Strings
  import opened R = Reference
  import opened Relay
  import opened Decisions
  import opened Schedule
  import opened Thread
  import opened Carry
  import opened Gateways
  import opened Protocol
  import opened Safety
  import opened Histories
  import opened Approvals

  // ---------------------------------------------------------------- a tick plans every decision

  /** None of the owner's decisions seen on the post and not spent comes before `d`. */
  ghost predicate OwnersFirst(cfg: Config, post: Post, d: Decision, seen: seq<Event>, answers: seq<Answer>) {
    && d in DecisionsOn(post.id, cfg.owner, seen) && d.byOwner && !IsSpent(answers, d.gestureId)
    && forall o :: o in DecisionsOn(post.id, cfg.owner, seen) && o.byOwner && !IsSpent(answers, o.gestureId) ==>
      o == d || Older(d, o)
  }

  lemma SameDecision(ds: seq<Decision>, a: Decision, b: Decision)
    requires Distinct(ds) && a in ds && b in ds && (a == b || Le(a, b)) && (a == b || Le(b, a))
    ensures a == b
  {
    LeOrders(a, b);
    if a != b {
      DifferentDecisions(ds, a, b);
    }
  }

  /** On one post: every stranger's, and the owner's first. */
  lemma ItemsOnAll(cfg: Config, expired: bool, post: Post, seen: seq<Event>, spent: set<string>, told: set<string>, d: Decision)
    requires DistinctIds(seen) && d in Undecided(cfg, post, seen, spent)
    ensures !d.byOwner ==> Stranger(post, d) in ItemsOn(cfg, expired, post, seen, spent, told)
    ensures d.byOwner && (forall o :: o in Undecided(cfg, post, seen, spent) && o.byOwner ==> o == d || Le(d, o)) ==>
      FirstByOwner(Undecided(cfg, post, seen, spent)) == Some(d)
  {
    var ds := Undecided(cfg, post, seen, spent);
    UndecidedFacts(cfg, post, seen, spent);
    TriageFacts(ds);
    StrangerItemsFacts(post, Strangers(ds));
    if d.byOwner && forall o :: o in ds && o.byOwner ==> o == d || Le(d, o) {
      SameDecision(ds, d, FirstByOwner(ds).value);
    }
  }

  lemma {:induction false} PlanHolds(
      cfg: Config, expired: bool, posts: seq<Post>, post: Post, seen: seq<Event>, spent: set<string>, told: set<string>, item: Item)
    requires post in posts && item in ItemsOn(cfg, expired, post, seen, spent, told)
    ensures item in Plan(cfg, expired, posts, seen, spent, told)
  {
    var init, last := posts[..|posts| - 1], posts[|posts| - 1];
    assert posts == init + [last];
    if post != last {
      PlanHolds(cfg, expired, init, post, seen, spent, told, item);
    }
  }

  lemma TodoHolds(cfg: Config, at: I64, posts: seq<Post>, post: Post, seen: seq<Event>, spent: set<string>, told: set<string>, item: Item)
    requires DistinctPosts(posts) && post in posts
    requires item in ItemsOn(cfg, PostHasExpired(post.about, at, cfg.clock), post, seen, spent, told)
    ensures item in Todo(cfg, at, posts, seen, spent, told)
  {
    var expired := PostHasExpired(post.about, at, cfg.clock);
    PartFacts(cfg, at, posts, expired);
    PlanHolds(cfg, expired, Part(cfg, at, posts, expired), post, seen, spent, told, item);
  }

  /** What a tick owes a decision: an answer to a stranger, the owner's first carried on an
      open post, or told that it came too late on an expired one. */
  function Owed(cfg: Config, at: I64, post: Post, d: Decision, told: bool): Option<Item> {
    if !d.byOwner then Some(Stranger(post, d))
    else if !PostHasExpired(post.about, at, cfg.clock) then Some(Act(post, d, told))
    else if d.gesture.Refuse? then None
    else Some(Late(post, d))
  }

  lemma OwedIsOnIt(cfg: Config, at: I64, post: Post, seen: seq<Event>, spent: set<string>, told: set<string>, d: Decision)
    requires DistinctIds(seen) && d in Undecided(cfg, post, seen, spent)
    requires d.byOwner ==> FirstByOwner(Undecided(cfg, post, seen, spent)) == Some(d)
    requires Owed(cfg, at, post, d, d.gestureId in told).Some?
    ensures Owed(cfg, at, post, d, d.gestureId in told).value
      in ItemsOn(cfg, PostHasExpired(post.about, at, cfg.clock), post, seen, spent, told)
  {
    ItemsOnAll(cfg, PostHasExpired(post.about, at, cfg.clock), post, seen, spent, told, d);
  }

  lemma TodoHasOwed(cfg: Config, r: RelayState, at: I64, posts: seq<Post>, seen: seq<Event>, post: Post, d: Decision)
    requires AnswersRooted(r) && IdsAreHashes(r.everGestures) && Believable(cfg, seen, r.everGestures)
    requires DistinctPosts(posts) && post in posts
    requires d in DecisionsOn(post.id, cfg.owner, seen) && !IsSpent(r.answers, d.gestureId)
    requires d.byOwner ==> OwnersFirst(cfg, post, d, seen, r.answers)
    requires Owed(cfg, at, post, d, IsToldRevoked(r.answers, d.gestureId)).Some?
    ensures Owed(cfg, at, post, d, IsToldRevoked(r.answers, d.gestureId)).value
      in Todo(cfg, at, posts, seen, SpentOn(r.answers, posts), ToldOn(r.answers, posts))
  {
    var spent, told := SpentOn(r.answers, posts), ToldOn(r.answers, posts);
    AnsweredHereOnly(cfg, r, posts, post, seen, d);
    UndecidedFacts(cfg, post, seen, spent);
    if d.byOwner {
      forall o | o in Undecided(cfg, post, seen, spent) && o.byOwner
        ensures o == d || Le(d, o)
      {
        AnsweredHereOnly(cfg, r, posts, post, seen, o);
        LeIsOlder(d, o);
      }
      ItemsOnAll(cfg, PostHasExpired(post.about, at, cfg.clock), post, seen, spent, told, d);
    }
    OwedIsOnIt(cfg, at, post, seen, spent, told, d);
    TodoHolds(cfg, at, posts, post, seen, spent, told, Owed(cfg, at, post, d, d.gestureId in told).value);
  }

  /** Tick completeness: once the answers are read, everything the loop owes to what it saw
      on the posts it read is on its list. */
  lemma TickPlansEveryDecision(cfg: Config, w: World, post: Post, d: Decision)
    requires Inv(cfg, w) && w.decider.Seen? && post in w.decider.posts
    requires d in DecisionsOn(post.id, cfg.owner, w.decider.seen) && !IsSpent(w.relay.answers, d.gestureId)
    requires d.byOwner ==> OwnersFirst(cfg, post, d, w.decider.seen, w.relay.answers)
    ensures var owed := Owed(cfg, w.decider.at, post, d, IsToldRevoked(w.relay.answers, d.gestureId));
      owed.Some? ==> owed.value in Pending(DeciderDoes(cfg, w, ReadAnswers).decider)
  {
    SeenIsOk(cfg, w);
    PendingIsTodo(cfg, w);
    if Owed(cfg, w.decider.at, post, d, IsToldRevoked(w.relay.answers, d.gestureId)).Some? {
      TodoHasOwed(cfg, w.relay, w.decider.at, w.decider.posts, w.decider.seen, post, d);
    }
  }

  // ---------------------------------------------------------------- and does it

  /** The item is on the loop's list, its turn still to come. */
  predicate Queued(d: Decider, item: Item) {
    AtWork(d) && item in d.todo
  }

  /** A step by which the loop deals with the item. */
  predicate TakesUp(w: World, s: Step, item: Item) {
    s.NextItem? && w.decider.Working? && w.decider.todo != [] && w.decider.todo[0] == item
  }

  lemma QueueMoves(cfg: Config, w: World, s: Step, item: Item)
    requires Can(cfg, w, s) && !s.Crash? && Queued(w.decider, item)
    ensures Queued(Do(cfg, w, s).decider, item) || TakesUp(w, s, item)
  {
    if !DeciderCan(cfg, w, s) {
      OthersLeaveTheLoop(cfg, w, s);
    } else if s.NextItem? {
      ItemComesOff(cfg, w, s.took);
    } else if s.GatewayAnswers? {
      AnswerComesIn(cfg, w, s.answer);
    }
  }

  /** What is on the list of a tick that comes to its end was taken up. */
  lemma {:induction false} EveryItemIsTakenUp(cfg: Config, w: World, steps: seq<Step>, r: nat, q: nat, item: Item) returns (b: nat)
    requires Run(cfg, w, steps).Some? && r <= q <= |steps|
    requires Queued(After(cfg, w, steps, r).decider, item) && After(cfg, w, steps, q).decider.Waiting?
    requires forall n :: r <= n < q ==> !steps[n].Crash?
    ensures r <= b < q && TakesUp(After(cfg, w, steps, b), steps[b], item)
    decreases q - r
  {
    OneStep(cfg, w, steps, r);
    QueueMoves(cfg, After(cfg, w, steps, r), steps[r], item);
    if TakesUp(After(cfg, w, steps, r), steps[r], item) {
      b := r;
    } else {
      b := EveryItemIsTakenUp(cfg, w, steps, r + 1, q, item);
    }
  }

  // ---------------------------------------------------------------- one carry

  /** The owner's gesture is spent or was told "revoked" in its thread, or the post is gone
      and its reply is on the bus. */
  ghost predicate Settled(w: World, post: Post, d: Decision) {
    || IsSpent(w.relay.answers, d.gestureId)
    || IsToldRevoked(w.relay.answers, d.gestureId)
    || (post.id !in w.relay.posts && post.about.Some? && Count(w.gateway.sent, post.about.value.suggestionId) >= 1)
  }

  lemma SettledStays(w: World, v: World, post: Post, d: Decision)
    requires Onwards(w, v) && Settled(w, post, d) && post in w.relay.everPosts
    ensures Settled(v, post, d)
  {
    if IsSpent(w.relay.answers, d.gestureId) {
      var i :| 0 <= i < |w.relay.answers| && w.relay.answers[i].gesture == d.gestureId && w.relay.answers[i].Spends();
      assert v.relay.answers[i] == w.relay.answers[i];
    } else if IsToldRevoked(w.relay.answers, d.gestureId) {
      var i :| 0 <= i < |w.relay.answers| && w.relay.answers[i].gesture == d.gestureId && !w.relay.answers[i].Spends();
      assert v.relay.answers[i] == w.relay.answers[i];
    }
  }

  predicate IsActOn(item: Item, post: Post, d: Decision) {
    item.Act? && item.post == post && item.d == d
  }

  /** The loop carries the owner's gesture `d` on `post`. */
  predicate Carries(w: World, s: Step, post: Post, d: Decision) {
    w.decider.Working? && w.decider.todo != [] && IsActOn(w.decider.todo[0], post, d) && s.NextItem?
  }

  /** It waits for the Gateway's answer to that carry, or has yet to do what it asks for. */
  predicate FollowsUp(dec: Decider, post: Post, d: Decision) {
    (dec.Asking? || dec.Deleting? || dec.Saying?) && IsActOn(dec.item, post, d)
  }

  /** A step that is no crash and, if it is a write of the loop's, takes effect. */
  predicate Lands(s: Step) {
    && !s.Crash?
    && (s.NextItem? ==> s.took) && (s.DeleteDecided? ==> s.took) && (s.SayInThread? ==> s.took)
  }

  lemma ToldIsTold(cfg: Config, w: World)
    requires Inv(cfg, w) && w.decider.Working? && w.decider.todo != [] && w.decider.todo[0].Act?
    ensures w.decider.todo[0].told <==> IsToldRevoked(w.relay.answers, w.decider.todo[0].d.gestureId)
  {
    assert w.decider.todo[0] in w.decider.todo;
  }

  lemma LastAnswer(answers: seq<Answer>, a: Answer)
    ensures a.Spends() ==> IsSpent(answers + [a], a.gesture)
    ensures !a.Spends() ==> IsToldRevoked(answers + [a], a.gesture)
  {
    assert (answers + [a])[|answers|] == a;
  }

  /** A carry that needs no answer of the Gateway's: the session is dead, and the gesture was
      told so or is told now. */
  lemma CarryWithoutAnswer(cfg: Config, w: World, s: Step, post: Post, d: Decision)
    requires Inv(cfg, w) && DeciderCan(cfg, w, s) && Carries(w, s, post, d) && Lands(s)
    requires !d.gesture.Refuse? && post.about.Some?
    ensures Settled(DeciderDoes(cfg, w, s), post, d) || FollowsUp(DeciderDoes(cfg, w, s).decider, post, d)
  {
    ToldIsTold(cfg, w);
    LastAnswer(w.relay.answers, Answer(post.id, d.gestureId, Revoked));
  }

  lemma AskedToldIsTold(cfg: Config, w: World)
    requires Inv(cfg, w) && w.decider.Asking?
    ensures w.decider.item.Act? && (w.decider.item.told <==> IsToldRevoked(w.relay.answers, w.decider.item.d.gestureId))
  {
    assert w.decider.item in [w.decider.item] + w.decider.todo;
  }

  /** An answer within the window of the expiry leaves something to see, or to do. */
  lemma AnswerInTheWindow(cfg: Config, w: World, answer: GatewayAnswer, post: Post, d: Decision)
    requires Inv(cfg, w) && DeciderCan(cfg, w, GatewayAnswers(answer)) && FollowsUp(w.decider, post, d)
    requires ExpiresWithin(post.about, w.now, NotRecordedWindow(cfg.decision), cfg.clock)
    ensures Settled(AnswerDoes(cfg, w, answer), post, d) || FollowsUp(AnswerDoes(cfg, w, answer).decider, post, d)
  {
    AskedToldIsTold(cfg, w);
    AnswerComesIn(cfg, w, answer);
  }

  lemma FollowUpDone(cfg: Config, w: World, s: Step, post: Post, d: Decision)
    requires Inv(cfg, w) && DeciderCan(cfg, w, s) && (s.DeleteDecided? || s.SayInThread?) && FollowsUp(w.decider, post, d) && Lands(s)
    ensures Settled(DeciderDoes(cfg, w, s), post, d)
  {
    if s.SayInThread? {
      LastAnswer(w.relay.answers, Answer(post.id, d.gestureId, w.decider.reply));
    }
  }

  /** The step that ends a carry of an approval, within the window of the expiry, settles the
      gesture. */
  lemma EndingSettles(cfg: Config, w: World, s: Step, post: Post, d: Decision)
    requires Inv(cfg, w) && Can(cfg, w, s) && Lands(s)
    requires Carries(w, s, post, d) || FollowsUp(w.decider, post, d)
    requires !FollowsUp(Do(cfg, w, s).decider, post, d)
    requires !d.gesture.Refuse? && Dated(post.about, cfg.clock).Some?
    requires Do(cfg, w, s).now < Dated(post.about, cfg.clock).value <= Do(cfg, w, s).now + NotRecordedWindow(cfg.decision)
    ensures Settled(Do(cfg, w, s), post, d)
  {
    if !DeciderCan(cfg, w, s) {
      OthersLeaveTheLoop(cfg, w, s);
    } else if s.NextItem? {
      CarryWithoutAnswer(cfg, w, s, post, d);
    } else if s.GatewayAnswers? {
      NearEnough(post.about, Dated(post.about, cfg.clock).value, w.now, NotRecordedWindow(cfg.decision), cfg.clock);
      AnswerInTheWindow(cfg, w, s.answer, post, d);
    } else {
      FollowUpDone(cfg, w, s, post, d);
    }
  }

  lemma NearEnough(about: Option<Reference>, expiry: I64, now: I64, window: nat, clock: Clock)
    requires Dated(about, clock) == Some(expiry) && now < expiry <= now + window
    ensures ExpiresWithin(about, now, window, clock)
  {
  }

  /** A carry, from the step that starts it to the first moment it is over: no crash in
      between, the loop's writes taking effect. */
  datatype Leg = Leg(from: nat, to: nat)

  ghost predicate CarriedOver(cfg: Config, w: World, steps: seq<Step>, leg: Leg, post: Post, d: Decision) {
    && leg.from < leg.to <= |steps|
    && Carries(After(cfg, w, steps, leg.from), steps[leg.from], post, d)
    && (forall n :: leg.from <= n < leg.to ==> Lands(steps[n]))
    && (forall n :: leg.from < n < leg.to ==> FollowsUp(After(cfg, w, steps, n).decider, post, d))
    && !FollowsUp(After(cfg, w, steps, leg.to).decider, post, d)
  }

  function TimeAt(cfg: Config, w: World, steps: seq<Step>, k: nat): I64
    requires k <= |steps|
  {
    After(cfg, w, steps, k).now
  }

  /** Until its last step a carry is on. */
  lemma LegIsOn(cfg: Config, w: World, steps: seq<Step>, leg: Leg, post: Post, d: Decision)
    requires CarriedOver(cfg, w, steps, leg, post, d)
    ensures Lands(steps[leg.to - 1])
    ensures Carries(After(cfg, w, steps, leg.to - 1), steps[leg.to - 1], post, d)
      || FollowsUp(After(cfg, w, steps, leg.to - 1).decider, post, d)
  {
    var last: nat := leg.to - 1;
    if leg.from < last {
      assert FollowsUp(After(cfg, w, steps, last).decider, post, d);
    }
  }

  /** So a carry over within the window of the expiry settles the gesture. */
  lemma LegSettles(cfg: Config, w: World, steps: seq<Step>, leg: Leg, post: Post, d: Decision)
    requires Inv(cfg, w) && Run(cfg, w, steps).Some? && CarriedOver(cfg, w, steps, leg, post, d)
    requires !d.gesture.Refuse? && Dated(post.about, cfg.clock).Some?
    requires TimeAt(cfg, w, steps, leg.to) < Dated(post.about, cfg.clock).value
    requires Dated(post.about, cfg.clock).value <= TimeAt(cfg, w, steps, leg.to) + NotRecordedWindow(cfg.decision)
    ensures Settled(After(cfg, w, steps, leg.to), post, d)
  {
    HoldsAfter(cfg, w, steps, leg.to - 1);
    LegIsOn(cfg, w, steps, leg, post, d);
    OneStep(cfg, w, steps, leg.to - 1);
    EndingSettles(cfg, After(cfg, w, steps, leg.to - 1), steps[leg.to - 1], post, d);
  }

  /** Carries that end no further apart than `window`, the first before `expiry` and the last
      within `window` of it: one may be under way as the post expires. */
  ghost predicate CloseEnough(cfg: Config, w: World, steps: seq<Step>, legs: seq<Leg>, expiry: I64, window: nat) {
    && legs != [] && (forall i :: 0 <= i < |legs| ==> legs[i].to <= |steps|)
    && TimeAt(cfg, w, steps, legs[0].to) < expiry <= TimeAt(cfg, w, steps, legs[|legs| - 1].to) + window
    && forall i :: 0 < i < |legs| ==> TimeAt(cfg, w, steps, legs[i].to) <= TimeAt(cfg, w, steps, legs[i - 1].to) + window
  }

  lemma {:induction false} LastBefore(cfg: Config, w: World, steps: seq<Step>, legs: seq<Leg>, expiry: I64, window: nat) returns (i: nat)
    requires CloseEnough(cfg, w, steps, legs, expiry, window)
    ensures i < |legs| && TimeAt(cfg, w, steps, legs[i].to) < expiry <= TimeAt(cfg, w, steps, legs[i].to) + window
    decreases |legs|
  {
    var last := |legs| - 1;
    if TimeAt(cfg, w, steps, legs[last].to) < expiry {
      i := last;
    } else {
      i := LastBefore(cfg, w, steps, legs[..last], expiry, window);
    }
  }

  /** A step by which the sweep takes the post down. */
  predicate SweepsAway(cfg: Config, w: World, s: Step, post: Post) {
    SweeperCan(w, s) && post.id in w.relay.posts && post.id !in SweeperDoes(cfg, w, s).relay.posts
  }

  lemma SweptPost(cfg: Config, w: World, s: Step, post: Post)
    requires Inv(cfg, w) && SweepsAway(cfg, w, s, post) && post in w.relay.everPosts
    ensures Due(post.about, post.createdAt, cfg.clock) <= w.now
  {
    var p := w.sweeper.todo[0];
    assert p in w.sweeper.todo && p.id == post.id;
    SweptFromItsDueInstant(p.about, p.createdAt, w.sweeper.at, w.now, cfg.clock);
  }

  /** Settled at moment `k`, before the post's expiry: settled from then on, and before the
      sweep takes the post down. */
  ghost predicate SettledInTime(cfg: Config, w: World, steps: seq<Step>, k: nat, post: Post, d: Decision) {
    && k <= |steps|
    && (forall n :: k <= n <= |steps| ==> Settled(After(cfg, w, steps, n), post, d))
    && forall n :: 0 <= n < |steps| && SweepsAway(cfg, After(cfg, w, steps, n), steps[n], post) ==> k <= n
  }

  lemma InTime(cfg: Config, w: World, steps: seq<Step>, k: nat, post: Post, d: Decision)
    requires Inv(cfg, w) && Run(cfg, w, steps).Some? && k <= |steps| && post in w.relay.everPosts
    requires Settled(After(cfg, w, steps, k), post, d)
    requires Dated(post.about, cfg.clock).Some? && TimeAt(cfg, w, steps, k) < Dated(post.about, cfg.clock).value
    ensures SettledInTime(cfg, w, steps, k, post, d)
  {
    forall n | k <= n <= |steps|
      ensures Settled(After(cfg, w, steps, n), post, d)
    {
      GoesOn(cfg, w, steps, k, n);
      WrittenStays(cfg, w, steps, k, post);
      SettledStays(After(cfg, w, steps, k), After(cfg, w, steps, n), post, d);
    }
    forall n | 0 <= n < |steps| && SweepsAway(cfg, After(cfg, w, steps, n), steps[n], post)
      ensures k <= n
    {
      HoldsAfter(cfg, w, steps, n);
      WrittenStays(cfg, w, steps, n, post);
      SweptPost(cfg, After(cfg, w, steps, n), steps[n], post);
      if n < k {
        GoesOn(cfg, w, steps, n, k);
      }
    }
  }

  lemma WrittenStays(cfg: Config, w: World, steps: seq<Step>, k: nat, post: Post)
    requires Inv(cfg, w) && Run(cfg, w, steps).Some? && k <= |steps| && post in w.relay.everPosts
    ensures post in After(cfg, w, steps, k).relay.everPosts
  {
    Ends(cfg, w, steps, Run(cfg, w, steps).value);
    GoesOn(cfg, w, steps, 0, k);
  }

  /** No silence: the owner's approval of a dated post is carried again and again in a run,
      each time over no later than a turn of the loop and a request's time after the last,
      the first before the expiry. Then, before the post expires and before the sweep takes
      it down in that run, the gesture is spent or told "revoked" in the thread, or the post
      is gone with its reply on the bus; and so it stays. */
  lemma NoSilence(cfg: Config, w: World, steps: seq<Step>, legs: seq<Leg>, post: Post, d: Decision) returns (k: nat)
    requires Reachable(cfg, w) && Run(cfg, w, steps).Some? && post in w.relay.everPosts && !d.gesture.Refuse?
    requires forall i :: 0 <= i < |legs| ==> CarriedOver(cfg, w, steps, legs[i], post, d)
    requires Dated(post.about, cfg.clock).Some?
    requires CloseEnough(cfg, w, steps, legs, Dated(post.about, cfg.clock).value, NotRecordedWindow(cfg.decision))
    ensures SettledInTime(cfg, w, steps, k, post, d) && TimeAt(cfg, w, steps, k) < Dated(post.about, cfg.clock).value
  {
    ReachableKeeps(cfg, w);
    var i := LastBefore(cfg, w, steps, legs, Dated(post.about, cfg.clock).value, NotRecordedWindow(cfg.decision));
    LegSettles(cfg, w, steps, legs[i], post, d);
    k := legs[i].to;
    InTime(cfg, w, steps, k, post, d);
  }

  // ---------------------------------------------------------------- ticks close enough together

  /** A tick from its reading of the answers to its end: no crash, the loop's writes taking
      effect. */
  ghost predicate TickRuns(cfg: Config, w: World, steps: seq<Step>, tick: Leg) {
    && tick.from < tick.to <= |steps| && steps[tick.from] == ReadAnswers
    && (forall n :: tick.from <= n < tick.to ==> Lands(steps[n]))
    && After(cfg, w, steps, tick.to).decider.Waiting?
  }

  /** On the relay: the post stands, the owner's gesture `e` stands on it, and none of the
      owner's other decisions there that is not spent comes before it. */
  ghost predicate Pends(cfg: Config, v: World, post: Post, e: Event, d: Decision) {
    && post.id in v.relay.posts && v.relay.posts[post.id] == post
    && e in v.relay.gestures && OwnersDecision(cfg, e, post) == Some(d)
    && Oldest(cfg, v.relay.gestures, v.relay.answers, post, d)
  }

  /** What stood and was first when the gestures were read is first among what was seen. */
  lemma ServedIsFirst(
      cfg: Config, r: RelayState, answers: seq<Answer>, posts: seq<Post>, served: seq<Event>, post: Post, e: Event, d: Decision)
    requires GesturesOk(cfg, r) && Serves(r, cfg.clerk, posts, served) && post in posts
    requires e in r.gestures && e.genuine && DecisionOf(e, post.id, cfg.owner) == Some(d)
    requires !IsSpent(answers, e.id) && (d.byOwner ==> Oldest(cfg, r.gestures, answers, post, d))
    ensures var seen := ByOthers(served, cfg.clerk);
      && d in DecisionsOn(post.id, cfg.owner, seen) && !IsSpent(answers, d.gestureId)
      && (d.byOwner ==> OwnersFirst(cfg, post, d, seen, answers))
  {
    var seen := ByOthers(served, cfg.clerk);
    DecisionMeans(e, post.id, cfg.owner, d);
    DecisionsOnFacts(post.id, cfg.owner, seen);
    if d.byOwner {
      forall o | o in DecisionsOn(post.id, cfg.owner, seen) && o.byOwner && !IsSpent(answers, o.gestureId)
        ensures o == d || Older(d, o)
      {
        var f :| f in seen && DecisionOf(f, post.id, cfg.owner) == Some(o);
        DecisionMeans(f, post.id, cfg.owner, o);
        assert OwnersDecision(cfg, f, post) == Some(o);
      }
    }
  }

  lemma SpentStays(answers: seq<Answer>, more: seq<Answer>, g: string)
    requires answers <= more
    ensures IsSpent(answers, g) ==> IsSpent(more, g)
    ensures IsToldRevoked(answers, g) ==> IsToldRevoked(more, g)
  {
    assert forall i :: 0 <= i < |answers| ==> more[i] == answers[i];
  }

  lemma OldestStays(cfg: Config, held: set<Event>, answers: seq<Answer>, more: seq<Answer>, post: Post, d: Decision)
    requires Oldest(cfg, held, answers, post, d) && answers <= more
    ensures Oldest(cfg, held, more, post, d)
  {
    forall f | f in held && OwnersDecision(cfg, f, post).Some?
      ensures IsSpent(more, f.id) || OwnersDecision(cfg, f, post).value == d || Older(d, OwnersDecision(cfg, f, post).value)
    {
      SpentStays(answers, more, f.id);
    }
  }

  /** Up to moment `r`, the gesture pends on the relay. */
  ghost predicate PendsUpTo(cfg: Config, w: World, steps: seq<Step>, r: nat, post: Post, e: Event, d: Decision) {
    r <= |steps| && forall n :: 0 <= n <= r ==> Pends(cfg, After(cfg, w, steps, n), post, e, d)
  }

  /** So the tick that reads its answers at `r` has seen it, and seen it first. */
  lemma TickSees(cfg: Config, w: World, steps: seq<Step>, r: nat, post: Post, e: Event, d: Decision)
    requires Inv(cfg, w) && w.decider.Waiting? && Run(cfg, w, steps).Some? && PendsUpTo(cfg, w, steps, r, post, e, d)
    requires After(cfg, w, steps, r).decider.Seen? && !IsSpent(After(cfg, w, steps, r).relay.answers, e.id)
    ensures var u := After(cfg, w, steps, r);
      post in u.decider.posts && OwnersFirst(cfg, post, d, u.decider.seen, u.relay.answers)
  {
    PrefixRuns(cfg, w, steps, r);
    var u, init := After(cfg, w, steps, r), steps[..r];
    var i, j := TickOrigin(cfg, w, init, u);
    PrefixOf(cfg, w, steps, r, i);
    PrefixOf(cfg, w, steps, r, j);
    var v := After(cfg, w, steps, j);
    assert Pends(cfg, After(cfg, w, steps, i), post, e, d) && Pends(cfg, v, post, e, d);
    GoesOn(cfg, w, steps, j, r);
    HoldsAfter(cfg, w, steps, j);
    GesturesAreOk(cfg, v);
    OldestStays(cfg, v.relay.gestures, v.relay.answers, u.relay.answers, post, d);
    ServedIsFirst(cfg, v.relay, u.relay.answers, u.decider.posts, init[j].served, post, e, d);
  }

  lemma PendingIsQueued(d: Decider, item: Item)
    requires (d.Waiting? || d.Working?) && item in Pending(d)
    ensures Queued(d, item)
  {
  }

  lemma AnswersReadResume(cfg: Config, w: World)
    requires w.decider.Seen?
    ensures var d := DeciderDoes(cfg, w, ReadAnswers).decider; d.Waiting? || d.Working?
  {
  }

  lemma TickQueues(cfg: Config, u: World, post: Post, d: Decision)
    requires Inv(cfg, u) && u.decider.Seen? && post in u.decider.posts && !PostHasExpired(post.about, u.decider.at, cfg.clock)
    requires OwnersFirst(cfg, post, d, u.decider.seen, u.relay.answers)
    ensures Queued(DeciderDoes(cfg, u, ReadAnswers).decider, Act(post, d, IsToldRevoked(u.relay.answers, d.gestureId)))
  {
    TickPlansEveryDecision(cfg, u, post, d);
    AnswersReadResume(cfg, u);
    PendingIsQueued(DeciderDoes(cfg, u, ReadAnswers).decider, Act(post, d, IsToldRevoked(u.relay.answers, d.gestureId)));
  }
  lemma ReadEarlier(cfg: Config, u: World, about: Option<Reference>)
    requires Inv(cfg, u) && u.decider.Seen? && Dated(about, cfg.clock).Some? && u.now < Dated(about, cfg.clock).value
    ensures !PostHasExpired(about, u.decider.at, cfg.clock)
  {
  }

  /** The carry that a queued gesture gets, to the first moment it is over. */
  lemma {:induction false} CarryEnds(cfg: Config, w: World, steps: seq<Step>, b: nat, n: nat, q: nat, post: Post, d: Decision) returns (leg: Leg)
    requires b < n <= q <= |steps| && Run(cfg, w, steps).Some?
    requires Carries(After(cfg, w, steps, b), steps[b], post, d)
    requires forall k :: b <= k < q ==> Lands(steps[k])
    requires forall k :: b < k < n ==> FollowsUp(After(cfg, w, steps, k).decider, post, d)
    requires After(cfg, w, steps, q).decider.Waiting?
    ensures leg.from == b && leg.to <= q && CarriedOver(cfg, w, steps, leg, post, d)
    decreases q - n
  {
    if FollowsUp(After(cfg, w, steps, n).decider, post, d) && n < q {
      leg := CarryEnds(cfg, w, steps, b, n + 1, q, post, d);
    } else {
      leg := Leg(b, n);
    }
  }

  /** A tick that reads its answers before the expiry, with the gesture pending up to then,
      carries it. */
  lemma TickCarries(cfg: Config, w: World, steps: seq<Step>, tick: Leg, post: Post, e: Event, d: Decision) returns (leg: Leg)
    requires Inv(cfg, w) && w.decider.Waiting? && Run(cfg, w, steps).Some? && TickRuns(cfg, w, steps, tick)
    requires PendsUpTo(cfg, w, steps, tick.from, post, e, d) && !IsSpent(After(cfg, w, steps, tick.from).relay.answers, e.id)
    requires Dated(post.about, cfg.clock).Some? && TimeAt(cfg, w, steps, tick.from) < Dated(post.about, cfg.clock).value
    ensures CarriedIn(cfg, w, steps, tick, leg, post, d)
  {
    var item := TickQueuesIt(cfg, w, steps, tick, post, e, d);
    var b := EveryItemIsTakenUp(cfg, w, steps, tick.from + 1, tick.to, item);
    leg := CarryEnds(cfg, w, steps, b, b + 1, tick.to, post, d);
  }

  lemma TickQueuesIt(cfg: Config, w: World, steps: seq<Step>, tick: Leg, post: Post, e: Event, d: Decision) returns (item: Item)
    requires Inv(cfg, w) && w.decider.Waiting? && Run(cfg, w, steps).Some? && TickRuns(cfg, w, steps, tick)
    requires PendsUpTo(cfg, w, steps, tick.from, post, e, d) && !IsSpent(After(cfg, w, steps, tick.from).relay.answers, e.id)
    requires Dated(post.about, cfg.clock).Some? && TimeAt(cfg, w, steps, tick.from) < Dated(post.about, cfg.clock).value
    ensures IsActOn(item, post, d) && Queued(After(cfg, w, steps, tick.from + 1).decider, item)
  {
    var u := After(cfg, w, steps, tick.from);
    HoldsAfter(cfg, w, steps, tick.from);
    ReadsNow(cfg, w, steps, tick.from);
    TickSees(cfg, w, steps, tick.from, post, e, d);
    ReadEarlier(cfg, u, post.about);
    TickQueues(cfg, u, post, d);
    item := Act(post, d, IsToldRevoked(u.relay.answers, d.gestureId));
  }

  lemma ReadsNow(cfg: Config, w: World, steps: seq<Step>, r: nat)
    requires Run(cfg, w, steps).Some? && r < |steps| && steps[r] == ReadAnswers
    ensures After(cfg, w, steps, r).decider.Seen?
    ensures After(cfg, w, steps, r + 1).decider == DeciderDoes(cfg, After(cfg, w, steps, r), ReadAnswers).decider
  {
    OneStep(cfg, w, steps, r);
  }

  /** A carry of the gesture within a tick. */
  ghost predicate CarriedIn(cfg: Config, w: World, steps: seq<Step>, tick: Leg, leg: Leg, post: Post, d: Decision) {
    tick.from < leg.from && leg.to <= tick.to && CarriedOver(cfg, w, steps, leg, post, d)
  }

  /** Ticks that come often enough for a gesture: the first reads before `expiry`, and any
      carry of the gesture in it is over before; each next one reads within `window` of the
      end of any carry in the one before, and is over with its own within `window` too; and
      any carry in the last ends within `window` of `expiry`. A tick may have all its other
      posts still to do when the post expires. */
  ghost predicate OftenEnough(
      cfg: Config, w: World, steps: seq<Step>, ticks: seq<Leg>, post: Post, d: Decision, expiry: I64, window: nat)
  {
    && ticks != [] && (forall i :: 0 <= i < |ticks| ==> TickRuns(cfg, w, steps, ticks[i]))
    && TimeAt(cfg, w, steps, ticks[0].from) < expiry
    && (forall leg: Leg :: CarriedIn(cfg, w, steps, ticks[0], leg, post, d) ==> TimeAt(cfg, w, steps, leg.to) < expiry)
    && (forall i, leg: Leg :: 0 < i < |ticks| && CarriedIn(cfg, w, steps, ticks[i - 1], leg, post, d) ==>
        NextFollows(cfg, w, steps, ticks[i], leg, post, d, window))
    && forall leg: Leg :: CarriedIn(cfg, w, steps, ticks[|ticks| - 1], leg, post, d) ==>
        expiry <= TimeAt(cfg, w, steps, leg.to) + window
  }

  ghost predicate NextFollows(cfg: Config, w: World, steps: seq<Step>, tick: Leg, leg: Leg, post: Post, d: Decision, window: nat)
    requires leg.to <= |steps| && tick.from <= |steps|
  {
    && TimeAt(cfg, w, steps, tick.from) <= TimeAt(cfg, w, steps, leg.to) + window
    && forall own: Leg :: CarriedIn(cfg, w, steps, tick, own, post, d) ==>
        TimeAt(cfg, w, steps, own.to) <= TimeAt(cfg, w, steps, leg.to) + window
  }

  /** As long as the gesture is not settled and the post has not expired, it pends. */
  ghost predicate PendsUntilSettled(cfg: Config, w: World, steps: seq<Step>, post: Post, e: Event, d: Decision, expiry: I64) {
    forall n :: 0 <= n <= |steps| && TimeAt(cfg, w, steps, n) < expiry ==>
      Settled(After(cfg, w, steps, n), post, d) || Pends(cfg, After(cfg, w, steps, n), post, e, d)
  }

  /** A tick that reads before the expiry finds the gesture settled, or carries it. */
  lemma SettledOrCarried(cfg: Config, w: World, steps: seq<Step>, tick: Leg, post: Post, e: Event, d: Decision)
    returns (leg: Option<Leg>)
    requires Inv(cfg, w) && w.decider.Waiting? && Run(cfg, w, steps).Some? && TickRuns(cfg, w, steps, tick)
    requires post in w.relay.everPosts && Dated(post.about, cfg.clock).Some? && d.gestureId == e.id
    requires PendsUntilSettled(cfg, w, steps, post, e, d, Dated(post.about, cfg.clock).value)
    requires TimeAt(cfg, w, steps, tick.from) < Dated(post.about, cfg.clock).value
    ensures leg.None? ==> Settled(After(cfg, w, steps, tick.from), post, d)
    ensures leg.Some? ==> CarriedIn(cfg, w, steps, tick, leg.value, post, d)
  {
    if Settled(After(cfg, w, steps, tick.from), post, d) {
      leg := None;
    } else {
      forall n | 0 <= n <= tick.from
        ensures Pends(cfg, After(cfg, w, steps, n), post, e, d)
      {
        PendsBefore(cfg, w, steps, n, tick.from, post, e, d, Dated(post.about, cfg.clock).value);
      }
      var carried := TickCarries(cfg, w, steps, tick, post, e, d);
      leg := Some(carried);
    }
  }

  lemma PendsBefore(cfg: Config, w: World, steps: seq<Step>, n: nat, r: nat, post: Post, e: Event, d: Decision, expiry: I64)
    requires Inv(cfg, w) && Run(cfg, w, steps).Some? && post in w.relay.everPosts && n <= r <= |steps|
    requires PendsUntilSettled(cfg, w, steps, post, e, d, expiry) && TimeAt(cfg, w, steps, r) < expiry
    requires !Settled(After(cfg, w, steps, r), post, d)
    ensures Pends(cfg, After(cfg, w, steps, n), post, e, d)
  {
    GoesOn(cfg, w, steps, n, r);
    WrittenStays(cfg, w, steps, n, post);
    if Settled(After(cfg, w, steps, n), post, d) {
      SettledStays(After(cfg, w, steps, n), After(cfg, w, steps, r), post, d);
    }
  }

  /** From tick `i` on, read before the expiry: settled before it. */
  lemma {:induction false} SettledFromTick(
      cfg: Config, w: World, steps: seq<Step>, ticks: seq<Leg>, i: nat, post: Post, e: Event, d: Decision)
    returns (k: nat)
    requires Inv(cfg, w) && w.decider.Waiting? && Run(cfg, w, steps).Some? && i < |ticks|
    requires post in w.relay.everPosts && Dated(post.about, cfg.clock).Some? && d.gestureId == e.id && !d.gesture.Refuse?
    requires PendsUntilSettled(cfg, w, steps, post, e, d, Dated(post.about, cfg.clock).value)
    requires OftenEnough(cfg, w, steps, ticks, post, d, Dated(post.about, cfg.clock).value, NotRecordedWindow(cfg.decision))
    requires TimeAt(cfg, w, steps, ticks[i].from) < Dated(post.about, cfg.clock).value
    requires forall leg: Leg :: CarriedIn(cfg, w, steps, ticks[i], leg, post, d) ==>
      TimeAt(cfg, w, steps, leg.to) < Dated(post.about, cfg.clock).value
    ensures k <= |steps| && Settled(After(cfg, w, steps, k), post, d)
    ensures TimeAt(cfg, w, steps, k) < Dated(post.about, cfg.clock).value
    decreases |ticks| - i
  {
    var expiry, window := Dated(post.about, cfg.clock).value, NotRecordedWindow(cfg.decision);
    var found := SettledOrCarried(cfg, w, steps, ticks[i], post, e, d);
    if found.None? {
      k := ticks[i].from;
    } else if expiry <= TimeAt(cfg, w, steps, found.value.to) + window {
      LegSettles(cfg, w, steps, found.value, post, d);
      k := found.value.to;
    } else {
      assert NextFollows(cfg, w, steps, ticks[i + 1], found.value, post, d, window);
      k := SettledFromTick(cfg, w, steps, ticks, i + 1, post, e, d);
    }
  }

  /** No silence, with nothing assumed of what the loop reads or does but that its ticks come
      often enough and run to their end: an owner's approval that pends on the relay is
      settled before the post expires. */
  lemma NoSilenceOverTicks(cfg: Config, w: World, steps: seq<Step>, ticks: seq<Leg>, post: Post, e: Event, d: Decision)
    returns (k: nat)
    requires Reachable(cfg, w) && w.decider.Waiting? && Run(cfg, w, steps).Some?
    requires post in w.relay.everPosts && OwnersDecision(cfg, e, post) == Some(d) && !d.gesture.Refuse?
    requires Dated(post.about, cfg.clock).Some?
    requires PendsUntilSettled(cfg, w, steps, post, e, d, Dated(post.about, cfg.clock).value)
    requires OftenEnough(cfg, w, steps, ticks, post, d, Dated(post.about, cfg.clock).value, NotRecordedWindow(cfg.decision))
    ensures SettledInTime(cfg, w, steps, k, post, d) && TimeAt(cfg, w, steps, k) < Dated(post.about, cfg.clock).value
  {
    ReachableKeeps(cfg, w);
    DecisionMeans(e, post.id, cfg.owner, d);
    k := SettledFromTick(cfg, w, steps, ticks, 0, post, e, d);
    InTime(cfg, w, steps, k, post, d);
  }

  // ---------------------------------------------------------------- the bounded life of a post

  /** A pass of the sweep, from its reading to its end: no crash, its deletions taking
      effect. */
  ghost predicate PassOver(cfg: Config, w: World, steps: seq<Step>, pass: Leg) {
    && pass.from < pass.to <= |steps| && steps[pass.from].SweepReads?
    && (forall n :: pass.from <= n < pass.to ==> !steps[n].Crash? && (steps[n].SweepNext? ==> steps[n].took))
    && After(cfg, w, steps, pass.to).sweeper.Asleep?
  }

  /** The pass has the post before it, and will find it due. */
  predicate ToSweep(cfg: Config, w: World, post: Post) {
    w.sweeper.Sweeping? && post in w.sweeper.todo && Due(post.about, post.createdAt, cfg.clock) <= w.sweeper.at
  }

  lemma SweepNextMoves(cfg: Config, w: World, post: Post)
    requires SweeperCan(w, SweepNext(true)) && ToSweep(cfg, w, post)
    ensures var v := SweeperDoes(cfg, w, SweepNext(true)); ToSweep(cfg, v, post) || post.id !in v.relay.posts
  {
    var todo, at := w.sweeper.todo, w.sweeper.at;
    assert todo == [todo[0]] + todo[1..];
    SweptFromItsDueInstant(post.about, post.createdAt, at, at, cfg.clock);
  }

  lemma OthersLeaveTheSweep(cfg: Config, w: World, s: Step)
    requires Can(cfg, w, s) && !SweeperCan(w, s) && !s.Crash?
    ensures Do(cfg, w, s).sweeper == w.sweeper
  {
  }

  lemma SweepMoves(cfg: Config, w: World, s: Step, post: Post)
    requires Can(cfg, w, s) && !s.Crash? && (s.SweepNext? ==> s.took) && ToSweep(cfg, w, post)
    ensures ToSweep(cfg, Do(cfg, w, s), post) || post.id !in Do(cfg, w, s).relay.posts
  {
    if SweeperCan(w, s) {
      SweepNextMoves(cfg, w, post);
    } else {
      OthersLeaveTheSweep(cfg, w, s);
    }
  }

  lemma {:induction false} SweptByTheEnd(cfg: Config, w: World, steps: seq<Step>, n: nat, to: nat, post: Post)
    requires n <= to <= |steps|
    requires Inv(cfg, w) && Run(cfg, w, steps).Some? && post in After(cfg, w, steps, n).relay.everPosts
    requires ToSweep(cfg, After(cfg, w, steps, n), post) || post.id !in After(cfg, w, steps, n).relay.posts
    requires forall k :: n <= k < to ==> !steps[k].Crash? && (steps[k].SweepNext? ==> steps[k].took)
    requires After(cfg, w, steps, to).sweeper.Asleep?
    ensures post.id !in After(cfg, w, steps, to).relay.posts
    decreases |steps| - n
  {
    if post.id !in After(cfg, w, steps, n).relay.posts {
      GoesOn(cfg, w, steps, n, to);
    } else if n < to {
      OneStep(cfg, w, steps, n);
      SweepMoves(cfg, After(cfg, w, steps, n), steps[n], post);
      GoesOn(cfg, w, steps, n, n + 1);
      SweptByTheEnd(cfg, w, steps, n + 1, to, post);
    }
  }

  lemma TheOneStanding(cfg: Config, w: World, post: Post)
    requires Inv(cfg, w) && post in w.relay.everPosts && post.id in w.relay.posts
    ensures w.relay.posts[post.id] == post
  {
  }

  lemma PassReads(cfg: Config, w: World, s: Step, post: Post)
    requires SweeperCan(w, s) && s.SweepReads?
    requires post.id in w.relay.posts ==> w.relay.posts[post.id] == post
    requires Due(post.about, post.createdAt, cfg.clock) <= w.now
    ensures ToSweep(cfg, SweeperDoes(cfg, w, s), post) || post.id !in SweeperDoes(cfg, w, s).relay.posts
  {
  }

  /** A pass that starts at or past a post's due instant takes it down. */
  lemma PassTakesDown(cfg: Config, w: World, steps: seq<Step>, pass: Leg, post: Post)
    requires Inv(cfg, w) && Run(cfg, w, steps).Some? && PassOver(cfg, w, steps, pass)
    requires post in After(cfg, w, steps, pass.from).relay.everPosts
    requires Due(post.about, post.createdAt, cfg.clock) <= TimeAt(cfg, w, steps, pass.from)
    ensures post.id !in After(cfg, w, steps, pass.to).relay.posts
  {
    var u := After(cfg, w, steps, pass.from);
    HoldsAfter(cfg, w, steps, pass.from);
    OneStep(cfg, w, steps, pass.from);
    if post.id in u.relay.posts {
      TheOneStanding(cfg, u, post);
    }
    PassReads(cfg, u, steps[pass.from], post);
    GoesOn(cfg, w, steps, pass.from, pass.from + 1);
    SweptByTheEnd(cfg, w, steps, pass.from + 1, pass.to, post);
  }

  /** Passes each over within an interval of the start of the one before, the first within
      an interval of `due`, the last starting at or past it. */
  ghost predicate Regular(cfg: Config, w: World, steps: seq<Step>, passes: seq<Leg>, due: I64, interval: nat) {
    && passes != [] && (forall i :: 0 <= i < |passes| ==> passes[i].from < passes[i].to <= |steps|)
    && TimeAt(cfg, w, steps, passes[0].to) <= due + interval
    && (forall i :: 0 < i < |passes| ==> TimeAt(cfg, w, steps, passes[i].to) <= TimeAt(cfg, w, steps, passes[i - 1].from) + interval)
    && due <= TimeAt(cfg, w, steps, passes[|passes| - 1].from)
  }

  lemma {:induction false} FirstPast(cfg: Config, w: World, steps: seq<Step>, passes: seq<Leg>, due: I64, interval: nat) returns (i: nat)
    requires Regular(cfg, w, steps, passes, due, interval)
    ensures i < |passes| && due <= TimeAt(cfg, w, steps, passes[i].from)
    ensures TimeAt(cfg, w, steps, passes[i].to) <= due + interval
    decreases |passes|
  {
    var last := |passes| - 1;
    if last > 0 && due <= TimeAt(cfg, w, steps, passes[last - 1].from) {
      i := FirstPast(cfg, w, steps, passes[..last], due, interval);
    } else {
      i := last;
    }
  }

  /** Bounded life: in a run whose passes of the sweep are regular and do not fail, every
      post is gone within one interval of its due instant, and for good. */
  lemma GoneWithinOneInterval(cfg: Config, w: World, steps: seq<Step>, passes: seq<Leg>, interval: nat, post: Post) returns (k: nat)
    requires Reachable(cfg, w) && Run(cfg, w, steps).Some? && post in w.relay.everPosts
    requires forall i :: 0 <= i < |passes| ==> PassOver(cfg, w, steps, passes[i])
    requires Regular(cfg, w, steps, passes, Due(post.about, post.createdAt, cfg.clock), interval)
    ensures k <= |steps| && TimeAt(cfg, w, steps, k) <= Due(post.about, post.createdAt, cfg.clock) + interval
    ensures forall n :: k <= n <= |steps| ==> post.id !in After(cfg, w, steps, n).relay.posts
  {
    ReachableKeeps(cfg, w);
    var i := FirstPast(cfg, w, steps, passes, Due(post.about, post.createdAt, cfg.clock), interval);
    WrittenStays(cfg, w, steps, passes[i].from, post);
    PassTakesDown(cfg, w, steps, passes[i], post);
    k := passes[i].to;
    forall n | k <= n <= |steps|
      ensures post.id !in After(cfg, w, steps, n).relay.posts
    {
      WrittenStays(cfg, w, steps, k, post);
      GoesOn(cfg, w, steps, k, n);
    }
  }
}

/** What the clerk promises, over every run: redeliveries, lost answers, crashes at any
    step, and the consumer, the sweep and the decisions loop interleaved as they may be. */
module Guarantees {
  import opened Strings
  import opened R = Reference
  import opened Relay
  import opened Decisions
  import opened Schedule
  import opened Thread
  import opened Carry
  import opened Gateways
  import opened Protocol
  import opened Safety

  // ---------------------------------------------------------------- posts and lines

  /** Both contents end in a reference line, of one suggestion. */
  predicate SameSuggestion(one: string, other: string) {
    && Parse(one).Some? && Parse(other).Some?
    && Parse(one).value.suggestionId == Parse(other).value.suggestionId
  }

  /** The relay never holds two standing posts that name one suggestion. */
  lemma OnePostPerSuggestion(cfg: Config, w: World)
    requires Reachable(cfg, w)
    ensures forall a, b :: (
      && a in w.relay.posts && b in w.relay.posts
      && SameSuggestion(w.relay.posts[a].content, w.relay.posts[b].content)) ==> a == b
  {
    ReachableKeeps(cfg, w);
    forall a, b | a in w.relay.posts && b in w.relay.posts
        && SameSuggestion(w.relay.posts[a].content, w.relay.posts[b].content)
      ensures a == b
    {
      var id := Parse(w.relay.posts[a].content).value.suggestionId;
      assert w.relay.posts[a].Names(id) && w.relay.posts[b].Names(id);
    }
  }

  /** The journal never gains two lines for one reference. */
  lemma OneLinePerReference(cfg: Config, w: World, i: nat, k: nat)
    requires Reachable(cfg, w)
    requires i < |w.relay.journal| && k < |w.relay.journal| && w.relay.journal[i] == w.relay.journal[k]
    ensures i == k
  {
    ReachableKeeps(cfg, w);
  }

  /** Two reports share a reference exactly when they are one report: a line that says
      "posted" never stands in for one that says "never sent". */
  lemma ReportsNeverSuppressEachOther(a: Report, b: Report)
    requires IsSuggestionId(a.approval) && IsSuggestionId(b.approval)
    ensures LineReference(a) == LineReference(b) <==> a == b
  {
    assert |LineReference(a)| == if a.PostedReport? then 64 else 69;
    assert |LineReference(b)| == if b.PostedReport? then 64 else 69;
    assert LineReference(a)[..64] == a.approval && LineReference(b)[..64] == b.approval;
  }

  // ---------------------------------------------------------------- no silent loss

  /** A message the bus may stop redelivering was settled once and for all by an outcome
      that is true of it: not readable, expired, refused for good by the relay, or a
      suggestion a post of the clerk's has named, its own if it was posted, or the Gateway
      holds an approval of. */
  lemma NoSilentLoss(cfg: Config, w: World, m: nat) returns (k: nat)
    requires Reachable(cfg, w) && m in w.acked
    ensures m < |w.stream| && k < |w.log| && w.log[k].0 == m && !w.log[k].1.Naked?
    ensures match w.log[k].1
      case SkippedUnreadable => w.stream[m].Garbage?
      case SkippedExpired =>
        && w.stream[m].Suggestion? && w.stream[m].expiresAt.Some?
        && cfg.clock(w.stream[m].expiresAt.value).Some? && cfg.clock(w.stream[m].expiresAt.value).value <= w.now
      case SkippedAlreadyApproved => w.stream[m].Suggestion? && w.stream[m].id in w.gateway.rows
      case RefusedForGood => w.stream[m].Suggestion?
      case SkippedDuplicate => w.stream[m].Suggestion? && EverNamed(w.relay.everPosts, w.stream[m].id)
      case Posted => w.stream[m].Suggestion? && WrittenFor(w.relay.everPosts, w.stream[m])
  {
    ReachableKeeps(cfg, w);
    k :| 0 <= k < |w.log| && w.log[k].0 == m && !w.log[k].1.Naked?;
    assert Justified(cfg, w, m, w.log[k].1);
  }

  // ---------------------------------------------------------------- behind an item

  /** No decision of the owner's read on the post and not spent comes before `d`. */
  ghost predicate OwnersOldest(cfg: Config, post: Post, d: Decision, seen: seq<Event>, spent: set<string>) {
    forall other :: other in DecisionsOn(post.id, cfg.owner, seen) ==>
      !other.byOwner || other.gestureId in spent || other == d || Le(d, other)
  }

  /** Behind every item of the owner's is one event of the owner's. */
  lemma OwnersGesture(cfg: Config, w: World, item: Item) returns (e: Event)
    requires Inv(cfg, w) && item in Pending(w.decider) && !item.Stranger?
    ensures item.d.byOwner && OwnersOldest(cfg, item.post, item.d, w.decider.seen, w.decider.spent)
    ensures e in w.relay.everGestures && e.genuine && e.pubkey == cfg.owner && e.pubkey != cfg.clerk
    ensures DecisionOf(e, item.post.id, cfg.owner) == Some(item.d)
    ensures Targets(e, item.post.id) && e.id == item.d.gestureId
    ensures item.d.gesture.ApproveEdited? ==>
      IsDirectReply(e, item.post.id) && item.d.gesture.text == Trim(e.content) && Trim(e.content) != ""
    ensures (item.d.gesture.Approve? <==> SaysYes(Trim(e.content))) && (item.d.gesture.Refuse? <==> SaysNo(Trim(e.content)))
    ensures e.createdAt == item.d.createdAt
  {
    var seen, spent := w.decider.seen, w.decider.spent;
    UndecidedFacts(cfg, item.post, seen, spent);
    FirstByOwnerFacts(Undecided(cfg, item.post, seen, spent));
    DecisionsOnFacts(item.post.id, cfg.owner, seen);
    e :| e in seen && DecisionOf(e, item.post.id, cfg.owner) == Some(item.d);
    DecisionMeans(e, item.post.id, cfg.owner, item.d);
    forall other | other in DecisionsOn(item.post.id, cfg.owner, seen) && other.byOwner && other.gestureId !in spent
      ensures other == item.d || Le(item.d, other)
    {
      assert other in Undecided(cfg, item.post, seen, spent);
    }
  }

  /** A gesture gets at most one answer that spends it and at most one "revoked", and
      "revoked" never after it was spent; whatever the language was in between. */
  lemma EachGestureAnsweredOnce(cfg: Config, w: World, i: nat, j: nat)
    requires Reachable(cfg, w) && i < j < |w.relay.answers|
    requires w.relay.answers[i].gesture == w.relay.answers[j].gesture
    ensures w.relay.answers[i].reply == Revoked && w.relay.answers[j].reply != Revoked
  {
    ReachableKeeps(cfg, w);
  }

  /** All a step of the loop may do to the relay: take down the post of the item at hand,
      or add one answer to its gesture. */
  ghost predicate OneChange(w: World, r: RelayState) {
    || r == w.relay
    || (Pending(w.decider) != [] &&
        var item := Pending(w.decider)[0];
        || (r == w.relay.(posts := w.relay.posts - {item.post.id})
            && item.Act? && item.post.about.Some? && (item.d.gesture.Refuse? || w.decider.Deleting?))
        || exists reply: Reply ::
            && r == w.relay.(answers := w.relay.answers + [Answer(item.post.id, item.d.gestureId, reply)])
            && (reply.Revoked? ==> item.Act? && !item.told))
  }

  lemma ItemChanges(cfg: Config, w: World, took: bool)
    requires Inv(cfg, w) && w.decider.Working? && w.decider.todo != []
    ensures OneChange(w, ItemDoes(cfg, w, took).relay)
  {
    var item := w.decider.todo[0];
    var r := ItemDoes(cfg, w, took).relay;
    if item.Act? && item.post.about.Some? && item.d.gesture.Refuse? {
      assert took ==> r == w.relay.(posts := w.relay.posts - {item.post.id});
    } else if r != w.relay {
      var reply := if item.Stranger? then NotTheOwner else if item.Late? then Reply.Expired else Revoked;
      assert r == w.relay.(answers := w.relay.answers + [Answer(item.post.id, item.d.gestureId, reply)]);
    }
  }

  lemma LoopChanges(cfg: Config, w: World, s: Step)
    requires Inv(cfg, w) && DeciderCan(cfg, w, s)
    ensures OneChange(w, DeciderDoes(cfg, w, s).relay)
  {
    var r := DeciderDoes(cfg, w, s).relay;
    match s
    case NextItem(took) => ItemChanges(cfg, w, took);
    case SayInThread(took) =>
      var Saying(_, _, item, reply, _) := w.decider;
      assert Pending(w.decider)[0] == item;
      assert took ==> r == w.relay.(answers := w.relay.answers + [Answer(item.post.id, item.d.gestureId, reply)]);
    case DeleteDecided(_) => assert Pending(w.decider)[0] == w.decider.item;
    case _ =>
  }

  /** The decisions loop takes a post down only for the owner's own refusal, a cross on a
      verifying event, or once the reply of the suggestion it names is on the bus. */
  lemma DeletedOnlyWhenDecided(cfg: Config, w: World, s: Step) returns (e: Event)
    requires Reachable(cfg, w) && DeciderCan(cfg, w, s)
    requires DeciderDoes(cfg, w, s).relay.posts != w.relay.posts
    ensures Pending(w.decider) != []
    ensures var item := Pending(w.decider)[0];
      && item.Act? && item.d.byOwner && item.post.about.Some?
      && DeciderDoes(cfg, w, s).relay.posts == w.relay.posts - {item.post.id}
      && e in w.relay.everGestures && e.genuine && e.pubkey == cfg.owner && Targets(e, item.post.id) && e.id == item.d.gestureId
      && item.post.about == Parse(item.post.content)
      && (SaysNo(Trim(e.content)) || item.post.about.value.suggestionId in w.gateway.sent)
  {
    ReachableKeeps(cfg, w);
    LoopChanges(cfg, w, s);
    var item := Pending(w.decider)[0];
    assert item in Pending(w.decider);
    e := OwnersGesture(cfg, w, item);
    assert SaysItself(item.post);
    if w.decider.Deleting? {
      CountedIsIn(w.gateway.sent, item.post.about.value.suggestionId);
    }
  }

  /** The sweep takes a post down only from its due instant on. */
  lemma SweptOnlyWhenDue(cfg: Config, w: World, s: Step)
    requires Reachable(cfg, w) && SweeperCan(w, s)
    requires SweeperDoes(cfg, w, s).relay.posts != w.relay.posts
    ensures w.sweeper.Sweeping? && w.sweeper.todo != []
    ensures var p := w.sweeper.todo[0];
      && SweeperDoes(cfg, w, s).relay.posts == w.relay.posts - {p.id}
      && p.about == Parse(p.content)
      && Due(p.about, p.createdAt, cfg.clock) <= w.now
  {
    ReachableKeeps(cfg, w);
    var p := w.sweeper.todo[0];
    SweptFromItsDueInstant(p.about, p.createdAt, w.sweeper.at, w.now, cfg.clock);
  }

  // ---------------------------------------------------------------- whose gestures

  function GestureIds(events: set<Event>): set<string> {
    set e | e in events :: e.id
  }

  /** No decision of a tick is read off an event of the clerk's own, and every one is read
      off a gesture somebody made. */
  lemma DecisionsAreOthers(cfg: Config, w: World, item: Item)
    requires Inv(cfg, w) && item in Pending(w.decider)
    ensures item.d.author != cfg.clerk && item.d.gestureId in GestureIds(w.relay.everGestures)
  {
    var seen, spent := w.decider.seen, w.decider.spent;
    UndecidedFacts(cfg, item.post, seen, spent);
    DecisionsOnFacts(item.post.id, cfg.owner, seen);
    var e :| e in seen && DecisionOf(e, item.post.id, cfg.owner) == Some(item.d);
  }

  // ---------------------------------------------------------------- a dead session

  /** While the session is believed dead no call is made, to approve or to read, and no read
      is believed; only a refresh of the loop's own that succeeds, or a restart, ends it. */
  lemma DeadMakesNoCall(cfg: Config, w: World, s: Step)
    requires Can(cfg, w, s) && w.session.Dead?
    ensures Do(cfg, w, s).calls == w.calls && (s.ReadSuggestion? ==> !s.approved)
    ensures Do(cfg, w, s).session.Dead? <==> !(s.Refresh? && s.result == Some(Alive)) && !s.Crash?
  {
    if DeciderCan(cfg, w, s) {
      DeadLoop(cfg, w, s);
    } else if ConsumerCan(w, s) {
      DeadConsumer(cfg, w, s);
    }
  }

  lemma DeadLoop(cfg: Config, w: World, s: Step)
    requires DeciderCan(cfg, w, s) && w.session.Dead?
    ensures DeciderDoes(cfg, w, s).calls == w.calls
    ensures DeciderDoes(cfg, w, s).session.Dead? <==> !(s.Refresh? && s.result == Some(Alive))
  {
  }

  lemma DeadConsumer(cfg: Config, w: World, s: Step)
    requires ConsumerCan(w, s) && w.session.Dead?
    ensures ConsumerDoes(cfg, w, s).calls == w.calls && ConsumerDoes(cfg, w, s).session.Dead?
    ensures s.ReadSuggestion? ==> !s.approved
  {
  }

  /** From a death of the session to the loop's own successful refresh, or a restart,
      whatever the screen, the bus and everybody else do: the clerk calls the Gateway neither
      to approve nor to read. */
  lemma {:induction false} DeadMakesNoCalls(cfg: Config, w: World, v: World, steps: seq<Step>)
    requires Run(cfg, w, steps) == Some(v) && w.session.Dead?
    requires forall s :: s in steps ==> !(s.Refresh? && s.result == Some(Alive)) && !s.Crash?
    ensures v.session.Dead? && v.calls == w.calls && !Approves(v)
    ensures forall s :: s in steps && s.ReadSuggestion? ==> !s.approved
    decreases |steps|
  {
    if steps == [] {
    } else {
      var init, last := steps[..|steps| - 1], steps[|steps| - 1];
      assert steps == init + [last];
      var u := Run(cfg, w, init).value;
      DeadMakesNoCalls(cfg, w, u, init);
      DeadMakesNoCall(cfg, u, last);
    }
  }

  /** What a step of the loop does at the Gateway: a call adds a run there and is logged, an
      answer closes its run, and nothing else the Gateway holds is the loop's to change. */
  lemma OnlyCallsMoveTheGateway(cfg: Config, w: World, s: Step)
    requires DeciderCan(cfg, w, s)
    ensures var v := DeciderDoes(cfg, w, s);
      if s.NextItem? && Approves(w) then
        v.calls == w.calls + [CallFor(w.decider.todo[0])] && v.gateway == Arrive(w.gateway, v.calls[|w.calls|].suggestion)
      else
        && v.calls == w.calls
        && v.gateway == if s.GatewayAnswers? && !s.answer.NoUsableAnswer? then Close(w.gateway, w.decider.run) else w.gateway
  {
  }

  /** The session is believed dead exactly from an answer that refuses it, to an approval, to
      the read at posting time or to a refresh, on. */
  lemma SessionDies(cfg: Config, w: World, s: Step)
    requires Can(cfg, w, s)
    ensures Do(cfg, w, s).session.Dead? <==>
      || s == GatewayAnswers(GatewayAnswer.Unauthenticated) || (s.ReadSuggestion? && s.dies) || s == Refresh(Some(Dead))
      || (w.session.Dead? && s != Refresh(Some(Alive)) && !s.Crash?)
  {
    if DeciderCan(cfg, w, s) {
      LoopsSession(cfg, w, s);
    }
  }

  lemma LoopsSession(cfg: Config, w: World, s: Step)
    requires DeciderCan(cfg, w, s)
    ensures DeciderDoes(cfg, w, s).session ==
      if s == GatewayAnswers(GatewayAnswer.Unauthenticated) then Dead
      else if s.Refresh? && s.result.Some? then s.result.value
      else w.session
  {
  }
}

/** Why every approval was asked for: over every run, each call of the Gateway traced back
    to the posts and the gestures the relay held when they were read. */
module Approvals {
  import opened Strings
  import opened R = Reference
  import opened Relay
  import opened Decisions
  import opened Schedule
  import opened Thread
  import opened Protocol
  import opened Safety
  import opened Guarantees
  import opened Histories

  // ---------------------------------------------------------------- where a tick's knowledge is from

  /** Step `i` of the run read the posts `order`, which were all that stood then. */
  ghost predicate PostsRead(cfg: Config, w: World, steps: seq<Step>, i: nat, order: seq<Post>) {
    && i < |steps| && steps[i] == ReadPosts(order)
    && Enumerates(order, After(cfg, w, steps, i).relay.posts)
  }

  /** Step `j` read the gestures `seen` on `order`: every one by another that stood then and
      verifies. */
  ghost predicate GesturesRead(cfg: Config, w: World, steps: seq<Step>, j: nat, order: seq<Post>, seen: seq<Event>) {
    && j < |steps| && steps[j].ReadGestures?
    && Serves(After(cfg, w, steps, j).relay, cfg.clerk, order, steps[j].served)
    && seen == ByOthers(steps[j].served, cfg.clerk)
  }

  /** What the loop goes by came of its reads at steps `i` and `j` and of nothing else. */
  ghost predicate Origin(cfg: Config, w: World, steps: seq<Step>, d: Decider, i: nat, j: nat) {
    match d
    case Waiting => true
    case Read(at, posts) => PostsRead(cfg, w, steps, i, posts) && at == After(cfg, w, steps, i).now
    case Seen(at, posts, seen) =>
      && i < j && PostsRead(cfg, w, steps, i, posts) && GesturesRead(cfg, w, steps, j, posts, seen)
      && at == After(cfg, w, steps, i).now
    case _ =>
      && i < j < |steps| && steps[i].ReadPosts?
      && PostsRead(cfg, w, steps, i, steps[i].order) && GesturesRead(cfg, w, steps, j, steps[i].order, d.seen)
      && forall item :: item in Pending(d) ==> item.post in steps[i].order && InSeason(cfg, After(cfg, w, steps, i).now, item)
  }

  /** An owner's gesture is carried on a post that was open when the posts were read, and told
      that it came too late, if it was not a refusal, on one that was not. */
  predicate InSeason(cfg: Config, at: I64, item: Item) {
    && (item.Act? ==> !PostHasExpired(item.post.about, at, cfg.clock))
    && (item.Late? ==> PostHasExpired(item.post.about, at, cfg.clock) && !item.d.gesture.Refuse?)
  }

  lemma OriginStays(cfg: Config, w: World, init: seq<Step>, s: Step, d: Decider, i: nat, j: nat)
    requires Origin(cfg, w, init, d, i, j)
    ensures Origin(cfg, w, init + [s], d, i, j)
  {
    var steps := init + [s];
    assert steps[..|init|] == init;
    if i < |init| {
      PrefixOf(cfg, w, steps, |init|, i);
    }
    if j < |init| {
      PrefixOf(cfg, w, steps, |init|, j);
    }
  }

  /** A step of a tick at work does nothing but drop its first item, or stop. */
  lemma TickGoesOn(cfg: Config, w: World, s: Step)
    requires Can(cfg, w, s) && AtWork(w.decider)
    ensures var d := Do(cfg, w, s).decider;
      d.Waiting? || (AtWork(d) && d.seen == w.decider.seen
        && forall item :: item in Pending(d) ==> item in Pending(w.decider))
  {
    if !DeciderCan(cfg, w, s) {
      OthersLeaveTheLoop(cfg, w, s);
    } else if s.NextItem? {
      ItemComesOff(cfg, w, s.took);
    } else if s.GatewayAnswers? {
      AnswerComesIn(cfg, w, s.answer);
    }
  }

  lemma ResumedItems(seen: seq<Event>, spent: set<string>, todo: seq<Item>)
    ensures var d := Resume(seen, spent, todo);
      d.Waiting? || (d.Working? && d.seen == seen && forall item :: item in Pending(d) ==> item in todo)
  {
  }

  lemma {:induction false} PlanIsOfOneKind(cfg: Config, expired: bool, posts: seq<Post>, seen: seq<Event>, spent: set<string>, told: set<string>)
    ensures forall item :: item in Plan(cfg, expired, posts, seen, spent, told) ==>
      && (item.Act? ==> !expired && item.post in posts)
      && (item.Late? ==> expired && item.post in posts && !item.d.gesture.Refuse?)
  {
    if posts != [] {
      var init, last := posts[..|posts| - 1], posts[|posts| - 1];
      PlanIsOfOneKind(cfg, expired, init, seen, spent, told);
      StrangersAreStrangers(last, Strangers(Undecided(cfg, last, seen, spent)));
      assert posts == init + [last];
    }
  }

  lemma {:induction false} StrangersAreStrangers(post: Post, ds: seq<Decision>)
    ensures forall item :: item in StrangerItems(post, ds) ==> item.Stranger?
  {
    if ds != [] {
      StrangersAreStrangers(post, ds[..|ds| - 1]);
    }
  }

  lemma TodoIsInSeason(cfg: Config, at: I64, posts: seq<Post>, seen: seq<Event>, spent: set<string>, told: set<string>)
    requires DistinctPosts(posts)
    ensures forall item :: item in Todo(cfg, at, posts, seen, spent, told) ==> InSeason(cfg, at, item)
  {
    PartFacts(cfg, at, posts, false);
    PartFacts(cfg, at, posts, true);
    PlanIsOfOneKind(cfg, false, Part(cfg, at, posts, false), seen, spent, told);
    PlanIsOfOneKind(cfg, true, Part(cfg, at, posts, true), seen, spent, told);
  }

  lemma PlanIsOnPosts(cfg: Config, w: World)
    requires Inv(cfg, w) && w.decider.Seen?
    ensures var d := DeciderDoes(cfg, w, ReadAnswers).decider;
      d.Waiting? || (d.Working? && d.seen == w.decider.seen
        && forall item :: item in Pending(d) ==> item.post in w.decider.posts && InSeason(cfg, w.decider.at, item))
  {
    var Seen(at, posts, seen) := w.decider;
    var spent, told := SpentOn(w.relay.answers, posts), ToldOn(w.relay.answers, posts);
    SeenIsOk(cfg, w);
    TodoIsOnPosts(cfg, at, posts, seen, spent, told);
    TodoIsInSeason(cfg, at, posts, seen, spent, told);
    ResumedItems(seen, spent, Todo(cfg, at, posts, seen, spent, told));
  }

  /** What one step makes of it. */
  lemma OriginOn(cfg: Config, w: World, init: seq<Step>, u: World, s: Step, i: nat, j: nat) returns (a: nat, b: nat)
    requires Inv(cfg, w) && Run(cfg, w, init) == Some(u) && Inv(cfg, u) && Can(cfg, u, s)
    requires Origin(cfg, w, init, u.decider, i, j)
    ensures Origin(cfg, w, init + [s], Do(cfg, u, s).decider, a, b)
  {
    var steps, v := init + [s], Do(cfg, u, s);
    a, b := i, j;
    assert steps[..|init|] == init && After(cfg, w, steps, |init|) == u;
    OriginStays(cfg, w, init, s, u.decider, i, j);
    if !DeciderCan(cfg, u, s) {
      OthersLeaveTheLoop(cfg, u, s);
    } else if s.ReadPosts? {
      a := |init|;
    } else if s.ReadGestures? {
      b := |init|;
    } else if s.ReadAnswers? {
      PlanIsOnPosts(cfg, u);
    } else if AtWork(u.decider) {
      TickGoesOn(cfg, u, s);
    }
  }

  lemma {:induction false} TickOrigin(cfg: Config, w: World, steps: seq<Step>, v: World) returns (i: nat, j: nat)
    requires Inv(cfg, w) && w.decider.Waiting? && Run(cfg, w, steps) == Some(v)
    ensures Origin(cfg, w, steps, v.decider, i, j)
    decreases |steps|
  {
    if steps == [] {
      i, j := 0, 0;
    } else {
      var init, last := steps[..|steps| - 1], steps[|steps| - 1];
      var u := Run(cfg, w, init).value;
      i, j := TickOrigin(cfg, w, init, u);
      RunKeeps(cfg, w, init);
      i, j := OriginOn(cfg, w, init, u, last, i, j);
      assert init + [last] == steps;
    }
  }

  // ---------------------------------------------------------------- each call

  /** What a step makes of the log of calls: an approval asked for and the read of a
      suggestion on a session believed alive are entered, and nothing else is. */
  lemma CallsStay(cfg: Config, w: World, s: Step)
    requires Can(cfg, w, s)
    ensures Do(cfg, w, s).calls == w.calls +
      if s.NextItem? && Approves(w) then [CallFor(w.decider.todo[0])]
      else if s.ReadSuggestion? && w.session.Alive? then [SuggestionRead(w.stream[w.consumer.m].id)]
      else []
    ensures s.NextItem? ==> DeciderCan(cfg, w, s)
    ensures s.ReadSuggestion? ==> ConsumerCan(w, s)
  {
    if DeciderCan(cfg, w, s) {
      OnlyCallsMoveTheGateway(cfg, w, s);
    }
  }

  /** Call `c` of a run was made at one step of it, on a session believed alive: an approval
      for the item then at hand, or the read of the suggestion about to be posted. */
  lemma {:induction false} CallMade(cfg: Config, w: World, steps: seq<Step>, v: World, c: nat) returns (n: nat)
    requires w.calls == [] && Run(cfg, w, steps) == Some(v) && c < |v.calls|
    ensures n < |steps|
    ensures var x := After(cfg, w, steps, n);
      && x.session.Alive? && |x.calls| == c
      && if v.calls[c].Approval? then steps[n].NextItem? && Approves(x) && v.calls[c] == CallFor(x.decider.todo[0])
         else steps[n].ReadSuggestion? && ConsumerCan(x, steps[n]) && v.calls[c] == SuggestionRead(x.stream[x.consumer.m].id)
    decreases |steps|
  {
    var init, last := steps[..|steps| - 1], steps[|steps| - 1];
    var u := Run(cfg, w, init).value;
    CallsStay(cfg, u, last);
    if c < |u.calls| {
      n := CallMade(cfg, w, init, u, c);
      PrefixOf(cfg, w, steps, |init|, n);
    } else {
      n := |init|;
    }
  }

  /** The owner's decision that event `f` is on the post, if it verifies and is one. */
  function OwnersDecision(cfg: Config, f: Event, post: Post): Option<Decision> {
    if f.genuine && f.pubkey == cfg.owner then DecisionOf(f, post.id, cfg.owner) else None
  }

  /** The call is for an item of the owner's, on a post that stood as step `i` read it, and
      read off `e`, which stood and was read at step `j`. */
  ghost predicate ReadOff(cfg: Config, w: World, steps: seq<Step>, i: nat, j: nat, item: Item, e: Event) {
    && i < j < |steps|
    && item.post.id in After(cfg, w, steps, i).relay.posts && After(cfg, w, steps, i).relay.posts[item.post.id] == item.post
    && e in After(cfg, w, steps, j).relay.gestures
    && OwnersDecision(cfg, e, item.post) == Some(item.d)
  }

  /** Of all the gestures on the relay at step `j`, and not only of those the loop kept,
      none of the owner's on the post that `answers` leave unspent decides before `d`. */
  ghost predicate Oldest(cfg: Config, held: set<Event>, answers: seq<Answer>, post: Post, d: Decision) {
    forall f :: f in held && OwnersDecision(cfg, f, post).Some? ==>
      IsSpent(answers, f.id) || OwnersDecision(cfg, f, post).value == d || Older(d, OwnersDecision(cfg, f, post).value)
  }

  lemma ServedDecides(cfg: Config, r: RelayState, posts: seq<Post>, served: seq<Event>, post: Post, f: Event, d: Decision)
    requires GesturesOk(cfg, r) && Serves(r, cfg.clerk, posts, served) && post in posts
    requires f in r.gestures && OwnersDecision(cfg, f, post) == Some(d)
    ensures d in DecisionsOn(post.id, cfg.owner, ByOthers(served, cfg.clerk)) && d.byOwner && d.gestureId == f.id
  {
    DecisionMeans(f, post.id, cfg.owner, d);
    DecisionsOnFacts(post.id, cfg.owner, ByOthers(served, cfg.clerk));
  }

  lemma OldestOfAll(
      cfg: Config, r: RelayState, order: seq<Post>, served: seq<Event>, post: Post, d: Decision, spent: set<string>, answers: seq<Answer>)
    requires GesturesOk(cfg, r) && Serves(r, cfg.clerk, order, served) && post in order
    requires OwnersOldest(cfg, post, d, ByOthers(served, cfg.clerk), spent)
    requires forall g :: g in spent ==> IsSpent(answers, g)
    ensures Oldest(cfg, r.gestures, answers, post, d)
  {
    forall f | f in r.gestures && OwnersDecision(cfg, f, post).Some?
      ensures IsSpent(answers, f.id) || OwnersDecision(cfg, f, post).value == d || Older(d, OwnersDecision(cfg, f, post).value)
    {
      ServedDecides(cfg, r, order, served, post, f, OwnersDecision(cfg, f, post).value);
      LeIsOlder(d, OwnersDecision(cfg, f, post).value);
    }
  }

  /** What an item at hand says of itself. */
  lemma ItemSays(cfg: Config, x: World, item: Item)
    requires Inv(cfg, x) && item in Pending(x.decider)
    ensures item.post in x.relay.everPosts && item.post.about == Parse(item.post.content)
    ensures item.d in Undecided(cfg, item.post, x.decider.seen, x.decider.spent)
    ensures forall g :: g in x.decider.spent ==> IsSpent(x.relay.answers, g)
    ensures !IsSpent(x.relay.answers, item.d.gestureId)
    ensures item.Act? ==> (item.told <==> IsToldRevoked(x.relay.answers, item.d.gestureId))
    ensures GesturesOk(cfg, x.relay)
  {
  }

  lemma PostStood(w: World, order: seq<Post>, post: Post)
    requires Enumerates(order, w.relay.posts) && post in order
    ensures post.id in w.relay.posts && w.relay.posts[post.id] == post
  {
  }

  lemma GesturesAreOk(cfg: Config, w: World)
    requires Inv(cfg, w)
    ensures GesturesOk(cfg, w.relay)
  {
  }

  /** Behind an item of the owner's there is an event that stood when the gestures were
      read, and none older among all that stood. */
  lemma ItemIsRead(cfg: Config, w: World, steps: seq<Step>, x: World, item: Item) returns (i: nat, j: nat, e: Event)
    requires Inv(cfg, w) && w.decider.Waiting? && Run(cfg, w, steps) == Some(x) && Inv(cfg, x)
    requires item in Pending(x.decider) && !item.Stranger?
    ensures ReadOff(cfg, w, steps, i, j, item, e) && InSeason(cfg, After(cfg, w, steps, i).now, item)
    ensures Oldest(cfg, After(cfg, w, steps, j).relay.gestures, x.relay.answers, item.post, item.d)
  {
    i, j := TickOrigin(cfg, w, steps, x);
    e := OwnersGesture(cfg, x, item);
    ItemSays(cfg, x, item);
    GoesOn(cfg, w, steps, j, |steps|);
    HoldsAfter(cfg, w, steps, j);
    Ends(cfg, w, steps, x);
    var v, order, served := After(cfg, w, steps, j), steps[i].order, steps[j].served;
    GesturesAreOk(cfg, v);
    PostStood(After(cfg, w, steps, i), order, item.post);
    OwnersEventIsThere(cfg, v.relay, order, served, item, x.decider.spent, x.relay, e);
    OldestOfAll(cfg, v.relay, order, served, item.post, item.d, x.decider.spent, x.relay.answers);
  }

  lemma OwnersEventIsThere(
      cfg: Config, r: RelayState, order: seq<Post>, served: seq<Event>, item: Item, spent: set<string>, later: RelayState, e: Event)
    requires Serves(r, cfg.clerk, order, served) && GesturesOk(cfg, r) && GesturesOk(cfg, later)
    requires r.everGestures <= later.everGestures
    requires item.d in Undecided(cfg, item.post, ByOthers(served, cfg.clerk), spent)
    requires e in later.everGestures && e.genuine && DecisionOf(e, item.post.id, cfg.owner) == Some(item.d)
    ensures e in r.gestures
  {
    var seen := ByOthers(served, cfg.clerk);
    ByOthersFacts(served, cfg.clerk);
    UndecidedFacts(cfg, item.post, seen, spent);
    DecisionsOnFacts(item.post.id, cfg.owner, seen);
    var f :| f in seen && DecisionOf(f, item.post.id, cfg.owner) == Some(item.d);
    assert f.id == e.id;
  }

  /** Every approval the clerk asked for, in every run. When it did, the session was believed
      alive and nothing had spent the gesture; the post stood, and had not expired, and the
      gesture stood when they were read; no unspent decision of the owner's on the post, of
      all that stood, was made before it; the suggestion is the one the post's reference line
      names; and the gesture is a check mark, or a direct reply that is neither a check mark
      nor a cross, whose own trimmed text is the one sent. */
  lemma EveryCallIsJustified(cfg: Config, now: I64, steps: seq<Step>, w: World, c: nat)
    returns (i: nat, j: nat, n: nat, e: Event)
    requires Run(cfg, Start(now), steps) == Some(w) && c < |w.calls| && w.calls[c].Approval?
    ensures j < n < |steps| && steps[n].NextItem?
    ensures ReadOff(cfg, Start(now), steps, i, j, w.calls[c].item, e)
    ensures var x, Approval(item, suggestion, text) := After(cfg, Start(now), steps, n), w.calls[c];
      && |x.calls| == c && x.session.Alive? && !IsSpent(x.relay.answers, e.id)
      && Oldest(cfg, After(cfg, Start(now), steps, j).relay.gestures, x.relay.answers, item.post, item.d)
      && Parse(item.post.content).Some? && Parse(item.post.content).value.suggestionId == suggestion
      && (forall f :: f in After(cfg, Start(now), steps, j).relay.gestures && OwnersDecision(cfg, f, item.post).Some? ==>
          IsSpent(x.relay.answers, f.id) || e.createdAt <= f.createdAt)
      && !PostHasExpired(item.post.about, After(cfg, Start(now), steps, i).now, cfg.clock)
      && (text.None? ==> SaysYes(Trim(e.content)))
      && (text.Some? ==>
          IsDirectReply(e, item.post.id) && text.value == Trim(e.content) != "" && !SaysYes(text.value) && !SaysNo(text.value))
  {
    n := CallMade(cfg, Start(now), steps, w, c);
    var x := After(cfg, Start(now), steps, n);
    PrefixRuns(cfg, Start(now), steps, n);
    StartIsOk(cfg, now);
    HoldsAfter(cfg, Start(now), steps, n);
    var item := x.decider.todo[0];
    assert item in Pending(x.decider);
    i, j, e := ItemIsRead(cfg, Start(now), steps[..n], x, item);
    PrefixOf(cfg, Start(now), steps, n, i);
    PrefixOf(cfg, Start(now), steps, n, j);
    ItemSays(cfg, x, item);
    DecisionMeans(e, item.post.id, cfg.owner, item.d);
    OldestIsFirstMade(cfg, After(cfg, Start(now), steps, j).relay.gestures, x.relay.answers, item.post, item.d, e);
  }

  lemma OldestIsFirstMade(cfg: Config, held: set<Event>, answers: seq<Answer>, post: Post, d: Decision, e: Event)
    requires Oldest(cfg, held, answers, post, d) && OwnersDecision(cfg, e, post) == Some(d)
    ensures forall f :: f in held && OwnersDecision(cfg, f, post).Some? ==> IsSpent(answers, f.id) || e.createdAt <= f.createdAt
  {
    forall f | f in held && OwnersDecision(cfg, f, post).Some?
      ensures IsSpent(answers, f.id) || e.createdAt <= f.createdAt
    {
      DecisionMeans(e, post.id, cfg.owner, d);
      DecisionMeans(f, post.id, cfg.owner, OwnersDecision(cfg, f, post).value);
    }
  }

  lemma StartIsOk(cfg: Config, now: I64)
    ensures Inv(cfg, Start(now))
  {
  }
}

/** What every run of the protocol keeps: the invariant, step by step. */
module Safety {
  import opened Strings
  import opened R = Reference
  import opened Relay
  import opened Decisions
  import opened Schedule
  import opened Thread
  import opened Carry
  import opened Gateways
  import opened Protocol

  // ---------------------------------------------------------------- the invariant, part by part

  /** What a post is about is what its reference line reads as. */
  predicate SaysItself(p: Post) {
    p.about == Parse(p.content)
  }

  ghost predicate PostsOk(r: RelayState) {
    && (forall id :: id in r.posts ==> r.posts[id].id == id && r.posts[id] in r.everPosts)
    && (forall p :: p in r.everPosts ==> SaysItself(p))
    && forall p, q :: p in r.everPosts && q in r.everPosts && p.id == q.id ==> p == q
  }

  /** No two standing posts name one suggestion. */
  ghost predicate OneEach(posts: map<string, Post>) {
    forall a, b, suggestion ::
      a in posts && b in posts && posts[a].Names(suggestion) && posts[b].Names(suggestion) ==> a == b
  }

  ghost predicate StreamOk(stream: seq<Message>) {
    forall m :: m in stream ==> Contractual(m)
  }

  ghost predicate EverNamed(everPosts: set<Post>, suggestion: string) {
    exists p :: p in everPosts && p.Names(suggestion)
  }

  /** The suggestion's own post was written: its text, and below it its reference line. */
  ghost predicate WrittenFor(everPosts: set<Post>, m: Message) {
    m.Suggestion? && exists p :: p in everPosts && p.content == m.text + "\n" + Line(Reference(m.id, m.expiresAt))
  }

  /** What an outcome says about its message, true from then on. */
  ghost predicate Justified(cfg: Config, w: World, m: nat, o: Outcome) {
    && m < |w.stream|
    && (o.SkippedUnreadable? <==> w.stream[m].Garbage?)
    && (o.SkippedExpired? ==> Stale(w.stream[m], w.now, cfg.clock))
    && (o.Posted? || o.SkippedDuplicate? ==> EverNamed(w.relay.everPosts, w.stream[m].id))
    && (o.Posted? ==> WrittenFor(w.relay.everPosts, w.stream[m]))
    && (o.SkippedAlreadyApproved? ==> w.stream[m].id in w.gateway.rows)
  }

  ghost predicate ConsumerOk(cfg: Config, w: World) {
    match w.consumer
    case Idle => true
    case Clear(m) => m < |w.stream| && w.stream[m].Suggestion? && !Standing(w.relay.posts, w.stream[m].id)
    case Unapproved(m) => m < |w.stream| && w.stream[m].Suggestion? && !Standing(w.relay.posts, w.stream[m].id)
    case Handled(m, o) => Justified(cfg, w, m, o)
  }

  ghost predicate Accounted(log: seq<(nat, Outcome)>, m: nat) {
    exists k :: 0 <= k < |log| && log[k].0 == m && !log[k].1.Naked?
  }

  ghost predicate LogOk(cfg: Config, w: World) {
    && (forall k :: 0 <= k < |w.log| ==> Justified(cfg, w, w.log[k].0, w.log[k].1))
    && forall m :: m in w.acked ==> Accounted(w.log, m)
  }

  ghost predicate JournalOk(journal: seq<string>, j: Journalist) {
    && (forall i, k :: 0 <= i < k < |journal| ==> journal[i] != journal[k])
    && (j.Unlined? ==> j.reference !in journal)
  }

  /** One spending answer a gesture, one "revoked", and never "revoked" after spending. */
  ghost predicate AnswersOk(answers: seq<Answer>) {
    forall i, j :: 0 <= i < j < |answers| && answers[i].gesture == answers[j].gesture ==>
      !answers[i].Spends() && answers[j].Spends()
  }

  ghost predicate GesturesOk(cfg: Config, r: RelayState) {
    && r.gestures <= r.everGestures
    && (forall e :: e in r.everGestures ==> e.pubkey != cfg.clerk)
    && IdsAreHashes(r.everGestures)
  }

  /** An answer is to a gesture somebody made, in the thread of the post it is on. */
  ghost predicate Rooted(a: Answer, everGestures: set<Event>) {
    exists e :: e in everGestures && e.genuine && e.id == a.gesture && Targets(e, a.post)
  }

  ghost predicate AnswersRooted(r: RelayState) {
    forall i :: 0 <= i < |r.answers| ==> Rooted(r.answers[i], r.everGestures)
  }

  // ---------------------------------------------------------------- the decisions loop

  ghost predicate Known(posts: seq<Post>, everPosts: set<Post>) {
    && (forall p :: p in posts ==> p in everPosts)
    && forall i, j :: 0 <= i < j < |posts| ==> posts[i].id != posts[j].id
  }

  /** What the tick believes of the gestures it read. */
  ghost predicate Believable(cfg: Config, seen: seq<Event>, everGestures: set<Event>) {
    DistinctIds(seen) && forall e :: e in seen ==> e.genuine && e in everGestures && e.pubkey != cfg.clerk
  }

  /** Why an item is there: its decision was read on its post and not spent, by another
      key or as the owner's oldest. */
  ghost predicate Warranted(cfg: Config, item: Item, seen: seq<Event>, spent: set<string>, everPosts: set<Post>) {
    && item.post in everPosts
    && item.d in Undecided(cfg, item.post, seen, spent)
    && (if item.Stranger? then !item.d.byOwner
        else FirstByOwner(Undecided(cfg, item.post, seen, spent)) == Some(item.d))
  }

  ghost predicate DistinctGestures(items: seq<Item>) {
    forall i, j :: 0 <= i < j < |items| ==> items[i].d.gestureId != items[j].d.gestureId
  }

  /** An item not yet answered: nothing on the relay spends its gesture, and `told` is
      true to the relay. */
  ghost predicate Open(item: Item, answers: seq<Answer>) {
    && !IsSpent(answers, item.d.gestureId)
    && (item.Act? ==> (item.told <==> IsToldRevoked(answers, item.d.gestureId)))
  }

  function Pending(d: Decider): seq<Item> {
    match d
    case Working(_, _, todo) => todo
    case Asking(_, _, item, _, todo) => [item] + todo
    case Deleting(_, _, item, todo) => [item] + todo
    case Saying(_, _, item, _, todo) => [item] + todo
    case _ => []
  }

  ghost predicate ItemsOk(cfg: Config, items: seq<Item>, seen: seq<Event>, spent: set<string>, r: RelayState) {
    && Believable(cfg, seen, r.everGestures)
    && DistinctGestures(items)
    && (forall g :: g in spent ==> IsSpent(r.answers, g))
    && forall item :: item in items ==> Warranted(cfg, item, seen, spent, r.everPosts) && Open(item, r.answers)
  }

  /** An item whose approval is being carried. */
  predicate Carried(item: Item) {
    item.Act? && !item.d.gesture.Refuse? && item.post.about.Some?
  }

  /** The loop is in the middle of its list. */
  predicate AtWork(d: Decider) {
    d.Working? || d.Asking? || d.Deleting? || d.Saying?
  }

  ghost predicate DeciderOk(cfg: Config, r: RelayState, g: GatewayState, d: Decider) {
    && (d.Read? || d.Seen? ==> Known(d.posts, r.everPosts))
    && (d.Seen? ==> Believable(cfg, d.seen, r.everGestures))
    && (AtWork(d) ==> ItemsOk(cfg, Pending(d), d.seen, d.spent, r))
    && (d.Asking? || d.Deleting? ==> Carried(d.item))
    && (d.Asking? ==> d.run < |g.runs| && g.runs[d.run].suggestion == d.item.post.about.value.suggestionId)
    && (d.Deleting? ==> Count(g.sent, d.item.post.about.value.suggestionId) >= 1)
    && (d.Saying? ==> d.item.Act? && (d.reply.Revoked? ==> !d.item.told))
  }

  ghost predicate Inv(cfg: Config, w: World) {
    && PostsOk(w.relay)
    && OneEach(w.relay.posts)
    && StreamOk(w.stream)
    && ConsumerOk(cfg, w)
    && LogOk(cfg, w)
    && JournalOk(w.relay.journal, w.journalist)
    && AnswersOk(w.relay.answers)
    && AnswersRooted(w.relay)
    && GatewayOk(w.gateway)
    && GesturesOk(cfg, w.relay)
    && (w.sweeper.Sweeping? ==> w.sweeper.at <= w.now && forall p :: p in w.sweeper.todo ==> p in w.relay.everPosts)
    && DeciderOk(cfg, w.relay, w.gateway, w.decider)
    && (w.decider.Read? || w.decider.Seen? ==> w.decider.at <= w.now)
  }

  // ---------------------------------------------------------------- what never shrinks

  /** What other steps may do to what a task's place rests on. */
  ghost predicate Grows(cfg: Config, w: World, v: World) {
    && w.now <= v.now
    && w.stream <= v.stream
    && w.relay.everPosts <= v.relay.everPosts
    && w.relay.everGestures <= v.relay.everGestures
    && GatewayGrows(w.gateway, v.gateway)
  }

  lemma JustifiedStays(cfg: Config, w: World, v: World, m: nat, o: Outcome)
    requires Grows(cfg, w, v) && Justified(cfg, w, m, o)
    ensures Justified(cfg, v, m, o)
  {
    assert v.stream[m] == w.stream[m];
  }

  lemma LogStays(cfg: Config, w: World, v: World)
    requires Grows(cfg, w, v) && LogOk(cfg, w) && v.log == w.log && v.acked == w.acked
    ensures LogOk(cfg, v)
  {
    forall k | 0 <= k < |v.log|
      ensures Justified(cfg, v, v.log[k].0, v.log[k].1)
    {
      JustifiedStays(cfg, w, v, w.log[k].0, w.log[k].1);
    }
  }

  /** A consumer's place survives any step that adds no standing post. */
  lemma ConsumerStays(cfg: Config, w: World, v: World)
    requires Grows(cfg, w, v) && ConsumerOk(cfg, w) && v.consumer == w.consumer
    requires forall id :: id in v.relay.posts ==> id in w.relay.posts && v.relay.posts[id] == w.relay.posts[id]
    ensures ConsumerOk(cfg, v)
  {
    match w.consumer
    case Idle =>
    case Clear(m) => assert v.stream[m] == w.stream[m];
    case Unapproved(m) => assert v.stream[m] == w.stream[m];
    case Handled(m, o) => JustifiedStays(cfg, w, v, m, o);
  }

  lemma RootedStays(r: RelayState, q: RelayState)
    requires AnswersRooted(r) && r.everGestures <= q.everGestures && q.answers == r.answers
    ensures AnswersRooted(q)
  {
    forall i | 0 <= i < |q.answers|
      ensures Rooted(q.answers[i], q.everGestures)
    {
      assert Rooted(r.answers[i], r.everGestures);
    }
  }

  lemma ItemsStay(cfg: Config, items: seq<Item>, seen: seq<Event>, spent: set<string>, r: RelayState, q: RelayState)
    requires ItemsOk(cfg, items, seen, spent, r)
    requires r.everPosts <= q.everPosts && r.everGestures <= q.everGestures && q.answers == r.answers
    ensures ItemsOk(cfg, items, seen, spent, q)
  {
  }

  lemma DeciderStays(cfg: Config, w: World, v: World)
    requires Grows(cfg, w, v) && DeciderOk(cfg, w.relay, w.gateway, w.decider)
    requires v.decider == w.decider && v.relay.answers == w.relay.answers
    ensures DeciderOk(cfg, v.relay, v.gateway, v.decider)
  {
    if AtWork(w.decider) {
      ItemsStay(cfg, Pending(w.decider), w.decider.seen, w.decider.spent, w.relay, v.relay);
    }
  }

  // ---------------------------------------------------------------- the world's steps

  lemma GatewayMoves(cfg: Config, w: World, s: Step)
    requires GatewayOk(w.gateway) && EnvironmentCan(cfg, w, s)
    ensures GatewayOk(EnvironmentDoes(cfg, w, s).gateway) && GatewayGrows(w.gateway, EnvironmentDoes(cfg, w, s).gateway)
  {
    match s
    case ScreenApproves(id) => ArrivingKeeps(w.gateway, id);
    case GatewayGoesOn(run) => GoingOnKeeps(w.gateway, run);
    case BusForgets(id) => ForgettingKeeps(w.gateway, id);
    case _ =>
  }

  lemma EnvironmentKeeps(cfg: Config, w: World, s: Step)
    requires Inv(cfg, w) && EnvironmentCan(cfg, w, s)
    ensures Inv(cfg, EnvironmentDoes(cfg, w, s))
  {
    var v := EnvironmentDoes(cfg, w, s);
    GatewayMoves(cfg, w, s);
    assert Grows(cfg, w, v);
    LogStays(cfg, w, v);
    RootedStays(w.relay, v.relay);
    if !s.Crash? {
      ConsumerStays(cfg, w, v);
      DeciderStays(cfg, w, v);
    }
  }

  // ---------------------------------------------------------------- the consumers and the sweep

  /** A contractual suggestion's post names the suggestion and no other. */
  lemma NewPostNamesItsOwn(id: string, m: Message, createdAt: U64)
    requires m.Suggestion? && Contractual(m)
    ensures NewPost(id, m, createdAt).Names(m.id)
  {
    OwnNameIsRead(m.text, Reference(m.id, m.expiresAt));
  }

  lemma NewPostStands(posts: map<string, Post>, after: map<string, Post>, ever: set<Post>, p: Post)
    requires forall id :: id in posts ==> posts[id].id == id && posts[id] in ever
    requires after == posts[p.id := p]
    ensures forall id :: id in after ==> after[id].id == id && after[id] in ever + {p}
  {
  }

  lemma NewPostIsOk(r: RelayState, p: Post)
    requires PostsOk(r) && SaysItself(p) && forall q :: q in r.everPosts ==> q.id != p.id
    ensures PostsOk(r.(posts := r.posts[p.id := p], everPosts := r.everPosts + {p}))
  {
    NewPostStands(r.posts, r.posts[p.id := p], r.everPosts, p);
    forall q | q in r.everPosts + {p}
      ensures SaysItself(q)
    {
      assert q == p || q in r.everPosts;
    }
  }

  lemma OneMoreEach(posts: map<string, Post>, p: Post, suggestion: string)
    requires OneEach(posts) && !Standing(posts, suggestion) && p.Names(suggestion) && p.id !in posts
    ensures OneEach(posts[p.id := p])
  {
    var after := posts[p.id := p];
    forall a, b, s | a in after && b in after && after[a].Names(s) && after[b].Names(s)
      ensures a == b
    {
      assert a != p.id ==> a in posts && after[a] == posts[a];
      assert b != p.id ==> b in posts && after[b] == posts[b];
      assert a == p.id || b == p.id ==> s == suggestion;
    }
  }

  /** A post written where none stood for its suggestion. */
  lemma PostingKeeps(r: RelayState, p: Post, suggestion: string)
    requires PostsOk(r) && OneEach(r.posts) && !Standing(r.posts, suggestion)
    requires p.Names(suggestion) && p.about == Parse(p.content)
    requires p.id !in r.posts && forall q :: q in r.everPosts ==> q.id != p.id
    ensures var after := r.(posts := r.posts[p.id := p], everPosts := r.everPosts + {p});
      PostsOk(after) && OneEach(after.posts)
  {
    NewPostIsOk(r, p);
    OneMoreEach(r.posts, p, suggestion);
  }

  lemma WritingKeeps(cfg: Config, w: World, s: Step)
    requires Inv(cfg, w) && ConsumerCan(w, s) && s.WritePost?
    ensures Inv(cfg, ConsumerDoes(cfg, w, s))
  {
    var v := ConsumerDoes(cfg, w, s);
    var m := w.stream[w.consumer.m];
    assert Grows(cfg, w, v);
    NewPostNamesItsOwn(s.id, m, s.createdAt);
    PostingKeeps(w.relay, NewPost(s.id, m, s.createdAt), m.id);
    DeciderStays(cfg, w, v);
    RootedStays(w.relay, v.relay);
    LogStays(cfg, w, v);
  }

  lemma ConsumerKeeps(cfg: Config, w: World, s: Step)
    requires Inv(cfg, w) && ConsumerCan(w, s)
    ensures Inv(cfg, ConsumerDoes(cfg, w, s))
  {
    if s.WritePost? {
      WritingKeeps(cfg, w, s);
    } else {
      var v := ConsumerDoes(cfg, w, s);
      assert Grows(cfg, w, v);
      DeciderStays(cfg, w, v);
      RootedStays(w.relay, v.relay);
      if s.Settle? {
        SettleKeepsLog(cfg, w, s.took);
      } else {
        LogStays(cfg, w, v);
      }
    }
  }

  lemma SettleKeepsLog(cfg: Config, w: World, took: bool)
    requires Inv(cfg, w) && ConsumerCan(w, Settle(took))
    ensures LogOk(cfg, ConsumerDoes(cfg, w, Settle(took)))
  {
    var v := ConsumerDoes(cfg, w, Settle(took));
    var n := |w.log|;
    forall k | 0 <= k < |v.log|
      ensures Justified(cfg, v, v.log[k].0, v.log[k].1)
    {
      assert v.log[k] == if k < n then w.log[k] else (w.consumer.m, w.consumer.outcome);
      JustifiedStays(cfg, w, v, v.log[k].0, v.log[k].1);
    }
    forall m | m in v.acked
      ensures Accounted(v.log, m)
    {
      if m in w.acked {
        var k :| 0 <= k < n && w.log[k].0 == m && !w.log[k].1.Naked?;
        assert v.log[k] == w.log[k];
      } else {
        assert v.log[n] == (w.consumer.m, w.consumer.outcome);
      }
    }
  }

  lemma JournalistKeeps(cfg: Config, w: World, s: Step)
    requires Inv(cfg, w) && JournalistCan(w, s)
    ensures Inv(cfg, JournalistDoes(w, s))
  {
    var v := JournalistDoes(w, s);
    assert Grows(cfg, w, v);
    LogStays(cfg, w, v);
    RootedStays(w.relay, v.relay);
    ConsumerStays(cfg, w, v);
    DeciderStays(cfg, w, v);
  }

  lemma SweeperKeeps(cfg: Config, w: World, s: Step)
    requires Inv(cfg, w) && SweeperCan(w, s)
    ensures Inv(cfg, SweeperDoes(cfg, w, s))
  {
    var v := SweeperDoes(cfg, w, s);
    assert Grows(cfg, w, v);
    LogStays(cfg, w, v);
    RootedStays(w.relay, v.relay);
    ConsumerStays(cfg, w, v);
    DeciderStays(cfg, w, v);
  }

  // ---------------------------------------------------------------- the plan of a tick

  lemma UndecidedFacts(cfg: Config, post: Post, seen: seq<Event>, spent: set<string>)
    requires DistinctIds(seen)
    ensures var ds := Undecided(cfg, post, seen, spent);
      && Sorted(ds) && Distinct(ds)
      && forall d :: d in ds <==> d in DecisionsOn(post.id, cfg.owner, seen) && d.gestureId !in spent
  {
    DecisionsOnFacts(post.id, cfg.owner, seen);
    FilterFacts(DecisionsOn(post.id, cfg.owner, seen), NotIn(spent));
  }

  lemma {:induction false} StrangerItemsFacts(post: Post, ds: seq<Decision>)
    requires Distinct(ds)
    ensures forall item :: item in StrangerItems(post, ds) <==> item.Stranger? && item.post == post && item.d in ds
    ensures DistinctGestures(StrangerItems(post, ds))
  {
    if ds == [] {
    } else {
      var init, last := ds[..|ds| - 1], ds[|ds| - 1];
      StrangerItemsFacts(post, init);
      assert ds == init + [last];
      var items := StrangerItems(post, init);
      forall i | 0 <= i < |items|
        ensures items[i].d.gestureId != last.gestureId
      {
        assert items[i] in items;
        var k :| 0 <= k < |init| && init[k] == items[i].d;
        assert ds[k] == items[i].d;
      }
    }
  }

  /** What holds of every item planned from one reading. */
  ghost predicate Planned(cfg: Config, item: Item, posts: seq<Post>, seen: seq<Event>, spent: set<string>, told: set<string>) {
    && item.post in posts
    && item.d in DecisionsOn(item.post.id, cfg.owner, seen)
    && item.d.gestureId !in spent
    && item.d in Undecided(cfg, item.post, seen, spent)
    && (if item.Stranger? then !item.d.byOwner
        else FirstByOwner(Undecided(cfg, item.post, seen, spent)) == Some(item.d))
    && (item.Act? ==> item.told == (item.d.gestureId in told))
  }

  lemma ActItemsAre(expired: bool, post: Post, act: Option<Decision>, told: set<string>)
    ensures |ActItems(expired, post, act, told)| <= 1
    ensures forall item :: item in ActItems(expired, post, act, told) ==>
      && act == Some(item.d) && item.post == post && !item.Stranger?
      && (item.Act? ==> item.told == (item.d.gestureId in told))
  {
  }

  lemma ItemsOnFacts(cfg: Config, expired: bool, post: Post, seen: seq<Event>, spent: set<string>, told: set<string>)
    requires DistinctIds(seen)
    ensures forall item :: item in ItemsOn(cfg, expired, post, seen, spent, told) ==>
      Planned(cfg, item, [post], seen, spent, told)
    ensures DistinctGestures(ItemsOn(cfg, expired, post, seen, spent, told))
  {
    var ds := Undecided(cfg, post, seen, spent);
    UndecidedFacts(cfg, post, seen, spent);
    FirstByOwnerFacts(ds);
    FilterFacts(ds, IsStranger);
    StrangerItemsFacts(post, Strangers(ds));
    ActItemsAre(expired, post, FirstByOwner(ds), told);
    var items := StrangerItems(post, Strangers(ds));
    if FirstByOwner(ds).Some? {
      var act := FirstByOwner(ds).value;
      forall i | 0 <= i < |items|
        ensures items[i].d.gestureId != act.gestureId
      {
        assert items[i] in items;
        DifferentDecisions(ds, items[i].d, act);
      }
    }
  }

  lemma DifferentDecisions(ds: seq<Decision>, a: Decision, b: Decision)
    requires Distinct(ds) && a in ds && b in ds && a != b
    ensures a.gestureId != b.gestureId
  {
    var i :| 0 <= i < |ds| && ds[i] == a;
    var j :| 0 <= j < |ds| && ds[j] == b;
    assert i < j || j < i;
  }

  lemma JoinItems(cfg: Config, a: seq<Item>, b: seq<Item>, ps: seq<Post>, qs: seq<Post>, seen: seq<Event>, spent: set<string>, told: set<string>)
    requires DistinctIds(seen) && DistinctGestures(a) && DistinctGestures(b)
    requires forall item :: item in a ==> Planned(cfg, item, ps, seen, spent, told)
    requires forall item :: item in b ==> Planned(cfg, item, qs, seen, spent, told)
    requires forall p, q :: p in ps && q in qs ==> p.id != q.id
    ensures DistinctGestures(a + b)
    ensures forall item :: item in a + b ==> Planned(cfg, item, ps + qs, seen, spent, told)
  {
    forall i, j | 0 <= i < |a| && 0 <= j < |b|
      ensures a[i].d.gestureId != b[j].d.gestureId
    {
      assert a[i] in a && b[j] in b;
      DisjointPosts(a[i].post.id, b[j].post.id, cfg.owner, seen, a[i].d, b[j].d);
    }
  }

  ghost predicate DistinctPosts(posts: seq<Post>) {
    forall i, j :: 0 <= i < j < |posts| ==> posts[i].id != posts[j].id
  }

  lemma ApartFromTheLast(posts: seq<Post>)
    requires posts != [] && DistinctPosts(posts)
    ensures forall p, q :: p in posts[..|posts| - 1] && q in [posts[|posts| - 1]] ==> p.id != q.id
  {
    var init := posts[..|posts| - 1];
    forall p | p in init
      ensures p.id != posts[|posts| - 1].id
    {
      var i :| 0 <= i < |init| && init[i] == p;
      assert posts[i] == p;
    }
  }

  lemma {:induction false} PlanFacts(cfg: Config, expired: bool, posts: seq<Post>, seen: seq<Event>, spent: set<string>, told: set<string>)
    requires DistinctIds(seen) && DistinctPosts(posts)
    ensures forall item :: item in Plan(cfg, expired, posts, seen, spent, told) ==>
      Planned(cfg, item, posts, seen, spent, told)
    ensures DistinctGestures(Plan(cfg, expired, posts, seen, spent, told))
  {
    if posts == [] {
    } else {
      var init, last := posts[..|posts| - 1], posts[|posts| - 1];
      PlanFacts(cfg, expired, init, seen, spent, told);
      OneMorePlanned(cfg, expired, posts, init, last, Plan(cfg, expired, init, seen, spent, told), seen, spent, told);
    }
  }

  lemma OneMorePlanned(
      cfg: Config, expired: bool, posts: seq<Post>, init: seq<Post>, last: Post, items: seq<Item>, seen: seq<Event>, spent: set<string>, told: set<string>)
    requires DistinctIds(seen) && DistinctPosts(posts) && posts == init + [last] && DistinctGestures(items)
    requires forall item :: item in items ==> Planned(cfg, item, init, seen, spent, told)
    ensures var more := items + ItemsOn(cfg, expired, last, seen, spent, told);
      DistinctGestures(more) && forall item :: item in more ==> Planned(cfg, item, posts, seen, spent, told)
  {
    ItemsOnFacts(cfg, expired, last, seen, spent, told);
    ApartFromTheLast(posts);
    assert posts[..|posts| - 1] == init && posts[|posts| - 1] == last;
    JoinItems(cfg, items, ItemsOn(cfg, expired, last, seen, spent, told), init, [last], seen, spent, told);
  }

  lemma {:induction false} PartFacts(cfg: Config, at: I64, posts: seq<Post>, expired: bool)
    requires DistinctPosts(posts)
    ensures DistinctPosts(Part(cfg, at, posts, expired))
    ensures forall p :: p in Part(cfg, at, posts, expired) <==>
      p in posts && PostHasExpired(p.about, at, cfg.clock) == expired
  {
    if posts == [] {
    } else {
      var init, last := posts[..|posts| - 1], posts[|posts| - 1];
      PartFacts(cfg, at, init, expired);
      assert posts == init + [last];
      var part := Part(cfg, at, init, expired);
      forall i | 0 <= i < |part|
        ensures part[i].id != last.id
      {
        assert part[i] in init;
        var k :| 0 <= k < |init| && init[k] == part[i];
        assert posts[k] == part[i];
      }
    }
  }

  lemma SamePost(posts: seq<Post>, p: Post, q: Post)
    requires DistinctPosts(posts) && p in posts && q in posts && p.id == q.id
    ensures p == q
  {
    var i :| 0 <= i < |posts| && posts[i] == p;
    var j :| 0 <= j < |posts| && posts[j] == q;
    assert !(i < j) && !(j < i);
  }

  /** Everything a tick sets out to do: each gesture once. */
  lemma WholePlan(cfg: Config, at: I64, posts: seq<Post>, seen: seq<Event>, spent: set<string>, told: set<string>)
    requires DistinctIds(seen) && DistinctPosts(posts)
    ensures var todo := Todo(cfg, at, posts, seen, spent, told);
      && DistinctGestures(todo)
      && forall item :: item in todo ==> Planned(cfg, item, posts, seen, spent, told)
  {
    var open, expired := Part(cfg, at, posts, false), Part(cfg, at, posts, true);
    PartFacts(cfg, at, posts, false);
    PartFacts(cfg, at, posts, true);
    PlanFacts(cfg, false, open, seen, spent, told);
    PlanFacts(cfg, true, expired, seen, spent, told);
    forall p, q | p in open && q in expired
      ensures p.id != q.id
    {
      if p.id == q.id {
        SamePost(posts, p, q);
      }
    }
    JoinItems(cfg, Plan(cfg, false, open, seen, spent, told), Plan(cfg, true, expired, seen, spent, told),
      open, expired, seen, spent, told);
  }

  lemma TodoIsOnPosts(cfg: Config, at: I64, posts: seq<Post>, seen: seq<Event>, spent: set<string>, told: set<string>)
    requires DistinctIds(seen) && DistinctPosts(posts)
    ensures forall item :: item in Todo(cfg, at, posts, seen, spent, told) ==> item.post in posts
  {
    WholePlan(cfg, at, posts, seen, spent, told);
    forall item | item in Todo(cfg, at, posts, seen, spent, told)
      ensures item.post in posts
    {
      assert Planned(cfg, item, posts, seen, spent, told);
    }
  }

  lemma MemberIsOneOf(posts: seq<Post>, post: Post)
    requires post in posts
    ensures IsOneOf(posts, post.id)
  {
    var i :| 0 <= i < |posts| && posts[i] == post;
  }

  /** The answers in the threads of the posts read are all there are to the gestures on
      them. */
  lemma AnsweredHereOnly(cfg: Config, r: RelayState, posts: seq<Post>, post: Post, seen: seq<Event>, d: Decision)
    requires AnswersRooted(r) && IdsAreHashes(r.everGestures) && Believable(cfg, seen, r.everGestures)
    requires post in posts && d in DecisionsOn(post.id, cfg.owner, seen)
    ensures d.gestureId in SpentOn(r.answers, posts) <==> IsSpent(r.answers, d.gestureId)
    ensures d.gestureId in ToldOn(r.answers, posts) <==> IsToldRevoked(r.answers, d.gestureId)
  {
    MemberIsOneOf(posts, post);
    DecisionsOnFacts(post.id, cfg.owner, seen);
    var e :| e in seen && DecisionOf(e, post.id, cfg.owner) == Some(d);
    forall i | 0 <= i < |r.answers| && r.answers[i].gesture == d.gestureId
      ensures r.answers[i].post == post.id
    {
      assert Rooted(r.answers[i], r.everGestures);
      var f :| f in r.everGestures && f.genuine && f.id == r.answers[i].gesture && Targets(f, r.answers[i].post);
      assert f == e;
    }
  }

  lemma PlanIsOk(cfg: Config, r: RelayState, at: I64, posts: seq<Post>, seen: seq<Event>)
    requires Known(posts, r.everPosts) && Believable(cfg, seen, r.everGestures)
    requires AnswersRooted(r) && IdsAreHashes(r.everGestures)
    ensures var spent, told := SpentOn(r.answers, posts), ToldOn(r.answers, posts);
      ItemsOk(cfg, Todo(cfg, at, posts, seen, spent, told), seen, spent, r)
  {
    var spent, told := SpentOn(r.answers, posts), ToldOn(r.answers, posts);
    var items := Todo(cfg, at, posts, seen, spent, told);
    WholePlan(cfg, at, posts, seen, spent, told);
    forall item | item in items
      ensures Warranted(cfg, item, seen, spent, r.everPosts) && Open(item, r.answers)
    {
      assert Planned(cfg, item, posts, seen, spent, told);
      AnsweredHereOnly(cfg, r, posts, item.post, seen, item.d);
    }
  }

  // ---------------------------------------------------------------- the steps of a tick

  /** One answer, to a gesture nothing spent, and not "revoked" twice. */
  lemma OneAnswerKeeps(answers: seq<Answer>, a: Answer)
    requires AnswersOk(answers) && !IsSpent(answers, a.gesture)
    requires !a.Spends() ==> !IsToldRevoked(answers, a.gesture)
    ensures AnswersOk(answers + [a])
    ensures forall g :: g != a.gesture ==>
      (IsSpent(answers + [a], g) <==> IsSpent(answers, g)) && (IsToldRevoked(answers + [a], g) <==> IsToldRevoked(answers, g))
  {
    var more := answers + [a];
    assert forall i :: 0 <= i < |answers| ==> more[i] == answers[i];
    forall i | 0 <= i < |answers| && answers[i].gesture == a.gesture
      ensures !answers[i].Spends() && a.Spends()
    {
      assert !answers[i].Spends();
    }
  }

  /** Doing one item and dropping it leaves the others as they were. */
  lemma RestIsOk(cfg: Config, item: Item, rest: seq<Item>, seen: seq<Event>, spent: set<string>, r: RelayState, q: RelayState)
    requires ItemsOk(cfg, [item] + rest, seen, spent, r)
    requires q.everPosts == r.everPosts && q.everGestures == r.everGestures
    requires forall g :: g != item.d.gestureId ==>
      (IsSpent(q.answers, g) <==> IsSpent(r.answers, g)) && (IsToldRevoked(q.answers, g) <==> IsToldRevoked(r.answers, g))
    requires forall g :: IsSpent(r.answers, g) ==> IsSpent(q.answers, g)
    ensures ItemsOk(cfg, rest, seen, spent, q)
  {
    var all := [item] + rest;
    assert forall i :: 0 <= i < |rest| ==> rest[i] == all[i + 1];
    forall other | other in rest
      ensures other in all && other.d.gestureId != item.d.gestureId
    {
      var i :| 0 <= i < |rest| && rest[i] == other;
      assert all[0].d.gestureId != all[i + 1].d.gestureId;
    }
  }

  lemma ItemIsRooted(cfg: Config, item: Item, seen: seq<Event>, spent: set<string>, r: RelayState, reply: Reply)
    requires Believable(cfg, seen, r.everGestures) && Warranted(cfg, item, seen, spent, r.everPosts)
    ensures Rooted(Answer(item.post.id, item.d.gestureId, reply), r.everGestures)
  {
    UndecidedFacts(cfg, item.post, seen, spent);
    DecisionsOnFacts(item.post.id, cfg.owner, seen);
    var e :| e in seen && DecisionOf(e, item.post.id, cfg.owner) == Some(item.d);
    assert Targets(e, item.post.id) && e.id == item.d.gestureId;
  }

  lemma AnswersGoRooted(r: RelayState, a: Answer)
    requires AnswersRooted(r) && Rooted(a, r.everGestures)
    ensures AnswersRooted(r.(answers := r.answers + [a]))
  {
  }

  lemma AnsweringKeeps(cfg: Config, w: World, item: Item, rest: seq<Item>, seen: seq<Event>, spent: set<string>, reply: Reply, took: bool)
    requires AnswersOk(w.relay.answers) && AnswersRooted(w.relay) && ItemsOk(cfg, [item] + rest, seen, spent, w.relay)
    requires reply.Revoked? ==> item.Act? && !item.told
    ensures var r := Answered(w, item, reply, took);
      && AnswersOk(r.answers) && AnswersRooted(r) && ItemsOk(cfg, rest, seen, spent, r)
      && r == w.relay.(answers := r.answers)
  {
    var r := Answered(w, item, reply, took);
    assert item in [item] + rest;
    if took {
      var a := Answer(item.post.id, item.d.gestureId, reply);
      OneAnswerKeeps(w.relay.answers, a);
      ItemIsRooted(cfg, item, seen, spent, w.relay, reply);
      AnswersGoRooted(w.relay, a);
      AnswersKeepSpent(w.relay.answers, a);
    }
    RestIsOk(cfg, item, rest, seen, spent, w.relay, r);
  }

  lemma AnswersKeepSpent(answers: seq<Answer>, a: Answer)
    ensures forall g :: IsSpent(answers, g) ==> IsSpent(answers + [a], g)
    ensures forall g :: IsToldRevoked(answers, g) ==> IsToldRevoked(answers + [a], g)
  {
    var more := answers + [a];
    assert forall i :: 0 <= i < |answers| ==> more[i] == answers[i];
  }

  /** A step of the loop that changes no more than the answers, the Gateway, the session,
      what stands and the loop's own place. */
  lemma DeciderFrame(cfg: Config, w: World, v: World)
    requires Inv(cfg, w)
    requires v == w.(relay := v.relay, gateway := v.gateway, calls := v.calls, session := v.session, decider := v.decider)
    requires v.relay == w.relay.(posts := v.relay.posts, answers := v.relay.answers)
    requires forall id :: id in v.relay.posts ==> id in w.relay.posts && v.relay.posts[id] == w.relay.posts[id]
    requires AnswersOk(v.relay.answers) && AnswersRooted(v.relay)
    requires GatewayOk(v.gateway) && GatewayGrows(w.gateway, v.gateway)
    requires DeciderOk(cfg, v.relay, v.gateway, v.decider)
    requires v.decider.Read? || v.decider.Seen? ==> v.decider.at <= w.now
    ensures Inv(cfg, v)
  {
    assert Grows(cfg, w, v);
    LogStays(cfg, w, v);
    ConsumerStays(cfg, w, v);
  }

  lemma ResumeIsOk(cfg: Config, r: RelayState, g: GatewayState, seen: seq<Event>, spent: set<string>, todo: seq<Item>)
    requires ItemsOk(cfg, todo, seen, spent, r)
    ensures DeciderOk(cfg, r, g, Resume(seen, spent, todo))
  {
  }

  lemma GatewayStays(g: GatewayState)
    ensures GatewayGrows(g, g)
  {
  }

  /** Asking the Gateway adds a run there and leaves the item at hand. */
  lemma AskingKeeps(cfg: Config, w: World)
    requires Inv(cfg, w) && Approves(w)
    ensures Inv(cfg, ItemDoes(cfg, w, false))
  {
    var item := w.decider.todo[0];
    assert w.decider.todo == [item] + w.decider.todo[1..];
    ArrivingKeeps(w.gateway, item.post.about.value.suggestionId);
    DeciderFrame(cfg, w, ItemDoes(cfg, w, false));
  }

  /** What dealing with an item at once leaves on the list. */
  lemma RestAfterItem(cfg: Config, w: World, took: bool)
    requires w.decider.Working? && w.decider.todo != [] && !Approves(w)
    requires DeciderOk(cfg, w.relay, w.gateway, w.decider) && AnswersOk(w.relay.answers) && AnswersRooted(w.relay)
    ensures var v := ItemDoes(cfg, w, took);
      && DeciderOk(cfg, v.relay, v.gateway, v.decider) && AnswersOk(v.relay.answers) && AnswersRooted(v.relay)
      && v.relay == w.relay.(posts := v.relay.posts, answers := v.relay.answers)
  {
    var v := ItemDoes(cfg, w, took);
    var Working(seen, spent, todo) := w.decider;
    var item, rest := todo[0], todo[1..];
    assert todo == [item] + rest;
    var reply := if item.Stranger? then NotTheOwner else if item.Late? then Reply.Expired else Revoked;
    if item.Stranger? || item.Late? || (item.post.about.Some? && !item.d.gesture.Refuse? && !item.told) {
      AnsweringKeeps(cfg, w, item, rest, seen, spent, reply, took);
    }
    RestIsOk(cfg, item, rest, seen, spent, w.relay, w.relay.(posts := v.relay.posts));
    ResumeIsOk(cfg, v.relay, v.gateway, seen, spent, rest);
  }

  lemma ItemKeeps(cfg: Config, w: World, took: bool)
    requires Inv(cfg, w) && w.decider.Working? && w.decider.todo != []
    ensures Inv(cfg, ItemDoes(cfg, w, took))
  {
    if Approves(w) {
      AskingKeeps(cfg, w);
    } else {
      RestAfterItem(cfg, w, took);
      GatewayStays(w.gateway);
      DeciderFrame(cfg, w, ItemDoes(cfg, w, took));
    }
  }

  lemma RevokedOnlyUntold(answer: GatewayAnswer, told: bool, near: bool)
    ensures AfterGateway(answer, told, near) == Say(Revoked) ==> !told
  {
  }

  lemma ClosedKeeps(g: GatewayState, run: nat, answer: GatewayAnswer)
    requires GatewayOk(g) && run < |g.runs|
    ensures var h := if answer.NoUsableAnswer? then g else Close(g, run);
      GatewayOk(h) && GatewayGrows(g, h) && h.sent == g.sent
  {
    GatewayStays(g);
    ClosingKeeps(g, run);
  }

  /** What the answer leaves at hand. */
  lemma AfterAnswer(cfg: Config, w: World, answer: GatewayAnswer)
    requires w.decider.Asking? && DeciderOk(cfg, w.relay, w.gateway, w.decider) && GatewayOk(w.gateway)
    requires Truthful(w.gateway.runs[w.decider.run].phase, answer)
    ensures var v := AnswerDoes(cfg, w, answer); DeciderOk(cfg, v.relay, v.gateway, v.decider) && v.relay == w.relay
  {
    var v := AnswerDoes(cfg, w, answer);
    var Asking(seen, spent, item, run, todo) := w.decider;
    var near := ExpiresWithin(item.post.about, w.now, NotRecordedWindow(cfg.decision), cfg.clock);
    RestIsOk(cfg, item, todo, seen, spent, w.relay, w.relay);
    ResumeIsOk(cfg, w.relay, v.gateway, seen, spent, todo);
    RevokedOnlyUntold(answer, item.told, near);
    if AfterGateway(answer, item.told, near).DeletePost? {
      AnswerMeansSent(w.gateway, run, answer, item.told, near);
    }
  }

  lemma AnswerKeeps(cfg: Config, w: World, answer: GatewayAnswer)
    requires Inv(cfg, w) && DeciderCan(cfg, w, GatewayAnswers(answer))
    ensures Inv(cfg, AnswerDoes(cfg, w, answer))
  {
    ClosedKeeps(w.gateway, w.decider.run, answer);
    AfterAnswer(cfg, w, answer);
    DeciderFrame(cfg, w, AnswerDoes(cfg, w, answer));
  }

  lemma DeleteKeeps(cfg: Config, w: World, took: bool)
    requires Inv(cfg, w) && w.decider.Deleting?
    ensures Inv(cfg, DeciderDoes(cfg, w, DeleteDecided(took)))
  {
    var v := DeciderDoes(cfg, w, DeleteDecided(took));
    var Deleting(seen, spent, item, todo) := w.decider;
    RestIsOk(cfg, item, todo, seen, spent, w.relay, v.relay);
    GatewayStays(w.gateway);
    ResumeIsOk(cfg, v.relay, v.gateway, seen, spent, todo);
    DeciderFrame(cfg, w, v);
  }

  lemma SayKeeps(cfg: Config, w: World, took: bool)
    requires Inv(cfg, w) && w.decider.Saying?
    ensures Inv(cfg, DeciderDoes(cfg, w, SayInThread(took)))
  {
    var v := DeciderDoes(cfg, w, SayInThread(took));
    var Saying(seen, spent, item, reply, todo) := w.decider;
    AnsweringKeeps(cfg, w, item, todo, seen, spent, reply, took);
    GatewayStays(w.gateway);
    ResumeIsOk(cfg, v.relay, v.gateway, seen, spent, todo);
    DeciderFrame(cfg, w, v);
  }

  lemma ReadingKeeps(cfg: Config, w: World, s: Step)
    requires Inv(cfg, w) && DeciderCan(cfg, w, s)
    requires s.Refresh? || s.ReadPosts? || s.ReadGestures? || s.ReadAnswers? || s.GiveUpTick?
    ensures Inv(cfg, DeciderDoes(cfg, w, s))
  {
    var v := DeciderDoes(cfg, w, s);
    if s.ReadGestures? {
      ByOthersFacts(s.served, cfg.clerk);
    } else if s.ReadAnswers? {
      var Seen(at, posts, seen) := w.decider;
      PlanIsOk(cfg, w.relay, at, posts, seen);
      var spent, told := SpentOn(w.relay.answers, posts), ToldOn(w.relay.answers, posts);
      ResumeIsOk(cfg, w.relay, w.gateway, seen, spent, Todo(cfg, at, posts, seen, spent, told));
    }
    GatewayStays(w.gateway);
    DeciderFrame(cfg, w, v);
  }

  lemma FollowingUpKeeps(cfg: Config, w: World, s: Step)
    requires Inv(cfg, w) && DeciderCan(cfg, w, s) && (s.DeleteDecided? || s.SayInThread?)
    ensures Inv(cfg, DeciderDoes(cfg, w, s))
  {
    if s.DeleteDecided? {
      DeleteKeeps(cfg, w, s.took);
    } else {
      SayKeeps(cfg, w, s.took);
    }
  }

  lemma DeciderKeeps(cfg: Config, w: World, s: Step)
    requires Inv(cfg, w) && DeciderCan(cfg, w, s)
    ensures Inv(cfg, DeciderDoes(cfg, w, s))
  {
    if s.NextItem? {
      ItemKeeps(cfg, w, s.took);
    } else if s.GatewayAnswers? {
      AnswerKeeps(cfg, w, s.answer);
    } else if s.DeleteDecided? || s.SayInThread? {
      FollowingUpKeeps(cfg, w, s);
    } else {
      ReadingKeeps(cfg, w, s);
    }
  }

  lemma {:induction false} ByOthersFacts(events: seq<Event>, clerk: string)
    requires DistinctIds(events)
    ensures DistinctIds(ByOthers(events, clerk))
  {
    if events == [] {
    } else {
      var init, last := events[..|events| - 1], events[|events| - 1];
      ByOthersFacts(init, clerk);
      var others := ByOthers(init, clerk);
      forall i | 0 <= i < |others|
        ensures others[i].id != last.id
      {
        assert others[i] in init;
        var k :| 0 <= k < |init| && init[k] == others[i];
        assert events[k] == others[i];
      }
    }
  }

  // ---------------------------------------------------------------- every run

  lemma StepKeeps(cfg: Config, w: World, s: Step)
    requires Inv(cfg, w) && Can(cfg, w, s)
    ensures Inv(cfg, Do(cfg, w, s))
  {
    if ConsumerCan(w, s) {
      ConsumerKeeps(cfg, w, s);
    } else if JournalistCan(w, s) {
      JournalistKeeps(cfg, w, s);
    } else if SweeperCan(w, s) {
      SweeperKeeps(cfg, w, s);
    } else if DeciderCan(cfg, w, s) {
      DeciderKeeps(cfg, w, s);
    } else {
      EnvironmentKeeps(cfg, w, s);
    }
  }

  lemma {:induction false} RunKeeps(cfg: Config, w: World, steps: seq<Step>)
    requires Inv(cfg, w) && Run(cfg, w, steps).Some?
    ensures Inv(cfg, Run(cfg, w, steps).value)
  {
    if steps == [] {
    } else {
      RunKeeps(cfg, w, steps[..|steps| - 1]);
      StepKeeps(cfg, Run(cfg, w, steps[..|steps| - 1]).value, steps[|steps| - 1]);
    }
  }

  lemma RunPush(cfg: Config, u: World, steps: seq<Step>, w: World, s: Step)
    requires Run(cfg, u, steps) == Some(w) && Can(cfg, w, s)
    ensures Run(cfg, u, steps + [s]) == Some(Do(cfg, w, s))
  {
    assert (steps + [s])[..|steps + [s]| - 1] == steps;
  }

  lemma ReachableKeeps(cfg: Config, w: World)
    requires Reachable(cfg, w)
    ensures Inv(cfg, w)
  {
    var now: I64, steps :| Run(cfg, Start(now), steps) == Some(w);
    RunKeeps(cfg, Start(now), steps);
  }
}

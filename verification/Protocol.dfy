/** The clerk as a protocol over an external memory. The relay, the Gateway with the
    bus behind it, and the clerk's tasks move in steps: one request, or one thing the
    world does, at a time. Any task may be interrupted between two requests by any other
    step, a request may take effect without its answer arriving, and a crash may lose
    every task's place at any moment. */
module Protocol {
  import opened Strings
  import opened R = Reference
  import opened Relay
  import opened Decisions
  import opened Schedule
  import opened Thread
  import opened Carry
  import opened Gateways

  // ---------------------------------------------------------------- the world

  /** A forum post of the clerk's. `about` is what its reference line reads as. */
  datatype Post = Post(id: string, content: string, createdAt: U64, about: Option<Reference>) {
    predicate Names(suggestion: string) {
      about.Some? && about.value.suggestionId == suggestion
    }
  }

  /** A message of the suggestions stream: not readable, or a suggestion, with what its
      post will say above the reference line. */
  datatype Message = Garbage | Suggestion(id: string, expiresAt: Option<string>, text: string)

  datatype RelayState = RelayState(
    posts: map<string, Post>,      // the clerk's posts standing, by id
    everPosts: set<Post>,          // every post it ever wrote
    gestures: set<Event>,          // what others have put on them, and still stands
    everGestures: set<Event>,
    answers: seq<Answer>,          // the clerk's thread answers, in order
    journal: seq<string>)          // the bus event each journal line is tagged with

  datatype Outcome =
    | Posted
    | SkippedUnreadable | SkippedExpired | SkippedDuplicate | SkippedAlreadyApproved
    | RefusedForGood
    | Naked

  /** The suggestions consumer: which message, and how far its handling is. */
  datatype Consumer = Idle | Clear(m: nat) | Unapproved(m: nat) | Handled(m: nat, outcome: Outcome)

  /** The journal consumer: the reference it found no line for. */
  datatype Journalist = Resting | Unlined(reference: string)

  datatype Sweeper = Asleep | Sweeping(at: I64, todo: seq<Post>)

  /** One thing a tick of the decisions loop does about one gesture. */
  datatype Item =
    | Stranger(post: Post, d: Decision)
    | Act(post: Post, d: Decision, told: bool)
    | Late(post: Post, d: Decision)

  datatype Decider =
    | Waiting
    | Read(at: I64, posts: seq<Post>)
    | Seen(at: I64, posts: seq<Post>, seen: seq<Event>)
    | Working(seen: seq<Event>, spent: set<string>, todo: seq<Item>)
    | Asking(seen: seq<Event>, spent: set<string>, item: Item, run: nat, todo: seq<Item>)
    | Deleting(seen: seq<Event>, spent: set<string>, item: Item, todo: seq<Item>)
    | Saying(seen: seq<Event>, spent: set<string>, item: Item, reply: Reply, todo: seq<Item>)

  datatype World = World(
    now: I64,
    relay: RelayState,
    gateway: GatewayState,
    calls: seq<Call>,              // every call of the Gateway the clerk made, in order
    session: Session,
    stream: seq<Message>,
    acked: set<nat>,
    log: seq<(nat, Outcome)>,      // every settlement, in order
    consumer: Consumer,
    journalist: Journalist,
    sweeper: Sweeper,
    decider: Decider)

  /** One call of the Gateway: an approval, for an item and with the text the owner wrote if
      there is one, or the read of a suggestion at posting time. */
  datatype Call =
    | Approval(item: Item, suggestion: string, text: Option<string>)
    | SuggestionRead(suggestion: string)

  datatype Config = Config(owner: string, clerk: string, clock: Clock, decision: nat)

  function Start(now: I64): World {
    World(now,
      RelayState(map[], {}, {}, {}, [], []),
      GatewayState(map[], [], [], {}, []),
      [], Alive, [], {}, [],
      Idle, Resting, Asleep, Waiting)
  }

  // ---------------------------------------------------------------- the clerk's own reasoning

  predicate Standing(posts: map<string, Post>, suggestion: string) {
    exists id :: id in posts && posts[id].Names(suggestion)
  }

  /** A suggestion the contract allows: the deterministic id, and an expiry on one line. */
  predicate Contractual(m: Message) {
    m.Garbage? || (IsSuggestionId(m.id) && (m.expiresAt.Some? ==> '\n' !in m.expiresAt.value))
  }

  function NewPost(id: string, m: Message, createdAt: U64): Post
    requires m.Suggestion?
  {
    var content := m.text + "\n" + Line(Reference(m.id, m.expiresAt));
    Post(id, content, createdAt, Parse(content))
  }

  predicate Stale(m: Message, now: I64, clock: Clock) {
    m.Suggestion? && m.expiresAt.Some? && HasExpired(m.expiresAt.value, now, clock)
  }

  /** The reference a report's journal line is tagged with. */
  datatype Report = PostedReport(approval: string) | DeadReport(approval: string)

  function LineReference(r: Report): string {
    match r
    case PostedReport(a) => a
    case DeadReport(a) => a + ":dead"
  }

  function StrangerItems(post: Post, ds: seq<Decision>): seq<Item> {
    if ds == [] then [] else StrangerItems(post, ds[..|ds| - 1]) + [Stranger(post, ds[|ds| - 1])]
  }

  function Undecided(cfg: Config, post: Post, seen: seq<Event>, spent: set<string>): seq<Decision> {
    Unanswered(DecisionsOn(post.id, cfg.owner, seen), spent)
  }

  /** The owner's oldest is carried on an open post, and on an expired one told that it came
      too late, unless it asked for nothing but the post gone. */
  function ActItems(expired: bool, post: Post, act: Option<Decision>, told: set<string>): seq<Item> {
    if act.None? then []
    else if !expired then [Act(post, act.value, act.value.gestureId in told)]
    else if act.value.gesture.Refuse? then []
    else [Late(post, act.value)]
  }

  /** What a tick does about the gestures on one post. */
  function ItemsOn(cfg: Config, expired: bool, post: Post, seen: seq<Event>, spent: set<string>, told: set<string>): seq<Item> {
    var ds := Undecided(cfg, post, seen, spent);
    StrangerItems(post, Strangers(ds)) + ActItems(expired, post, FirstByOwner(ds), told)
  }

  function Plan(cfg: Config, expired: bool, posts: seq<Post>, seen: seq<Event>, spent: set<string>, told: set<string>): seq<Item> {
    if posts == [] then []
    else
      Plan(cfg, expired, posts[..|posts| - 1], seen, spent, told)
      + ItemsOn(cfg, expired, posts[|posts| - 1], seen, spent, told)
  }

  /** The open posts, or the expired ones, in the order they were read. */
  function Part(cfg: Config, at: I64, posts: seq<Post>, expired: bool): seq<Post> {
    if posts == [] then []
    else
      var last := posts[|posts| - 1];
      Part(cfg, at, posts[..|posts| - 1], expired)
      + (if PostHasExpired(last.about, at, cfg.clock) == expired then [last] else [])
  }

  /** Everything a tick sets out to do: on the open posts, then on the expired ones. */
  function Todo(cfg: Config, at: I64, posts: seq<Post>, seen: seq<Event>, spent: set<string>, told: set<string>): seq<Item> {
    Plan(cfg, false, Part(cfg, at, posts, false), seen, spent, told)
    + Plan(cfg, true, Part(cfg, at, posts, true), seen, spent, told)
  }

  function ByOthers(events: seq<Event>, clerk: string): (r: seq<Event>)
    ensures forall e :: e in r <==> e in events && e.pubkey != clerk
  {
    if events == [] then []
    else
      assert events == events[..|events| - 1] + [events[|events| - 1]];
      ByOthers(events[..|events| - 1], clerk)
      + (if events[|events| - 1].pubkey != clerk then [events[|events| - 1]] else [])
  }

  predicate IsOneOf(posts: seq<Post>, id: string) {
    exists i :: 0 <= i < |posts| && posts[i].id == id
  }

  /** The gestures spent by the answers in the threads of `posts`: the clerk asks the relay
      for no others. */
  function SpentOn(answers: seq<Answer>, posts: seq<Post>): set<string> {
    set i | 0 <= i < |answers| && IsOneOf(posts, answers[i].post) && answers[i].Spends() :: answers[i].gesture
  }

  function ToldOn(answers: seq<Answer>, posts: seq<Post>): set<string> {
    set i | 0 <= i < |answers| && IsOneOf(posts, answers[i].post) && !answers[i].Spends() :: answers[i].gesture
  }

  predicate Enumerates(order: seq<Post>, posts: map<string, Post>) {
    && (forall p :: p in order ==> p.id in posts && posts[p.id] == p)
    && (forall id :: id in posts ==> posts[id] in order)
    && forall i, j :: 0 <= i < j < |order| ==> order[i].id != order[j].id
  }

  /** What the relay served for the gestures on `posts`, each id once: events that verify,
      standing on the relay or the clerk's own, and every standing one that targets one of
      the posts. */
  predicate Serves(r: RelayState, clerk: string, posts: seq<Post>, served: seq<Event>) {
    && DistinctIds(served)
    && (forall e :: e in served ==> e.genuine && (e in r.gestures || e.pubkey == clerk))
    && forall e, p :: e in r.gestures && e.genuine && p in posts && Targets(e, p.id) ==> e in served
  }

  // ---------------------------------------------------------------- steps

  datatype Step =
    // the world
    | TimePasses(to: I64)
    | SuggestionPublished(message: Message)
    | GestureMade(e: Event)
    | GestureUndone(e: Event)
    | PostModerated(id: string)
    | ScreenApproves(id: string)
    | GatewayGoesOn(run: nat)
    | BusForgets(id: string)
    | Crash
    // the suggestions consumer
    | Look(m: nat, answered: bool, transient: bool)
    | ReadSuggestion(approved: bool, dies: bool)
    | WritePost(id: string, createdAt: U64, took: bool, answered: bool, transient: bool)
    | Settle(took: bool)
    // the journal consumer
    | LookForLine(report: Report, answered: bool)
    | WriteLine(took: bool)
    // the sweep
    | SweepReads(order: seq<Post>)
    | SweepNext(took: bool)
    // the decisions loop
    | Refresh(result: Option<Session>)
    | ReadPosts(order: seq<Post>)
    | ReadGestures(served: seq<Event>)
    | ReadAnswers
    | GiveUpTick
    | NextItem(took: bool)
    | GatewayAnswers(answer: GatewayAnswer)
    | DeleteDecided(took: bool)
    | SayInThread(took: bool)

  predicate EnvironmentCan(cfg: Config, w: World, s: Step) {
    match s
    case TimePasses(to) => w.now <= to
    case SuggestionPublished(m) => Contractual(m)
    case GestureMade(e) =>
      && e.pubkey != cfg.clerk && (e.genuine ==> e.id != "")
      && forall f :: f in w.relay.everGestures && f.genuine && e.genuine && f.id == e.id ==> f == e
    case GatewayGoesOn(run) => CanGoOn(w.gateway, run)
    case _ => s.ScreenApproves? || s.GestureUndone? || s.PostModerated? || s.BusForgets? || s.Crash?
  }

  function EnvironmentDoes(cfg: Config, w: World, s: Step): World
    requires EnvironmentCan(cfg, w, s)
  {
    match s
    case TimePasses(to) => w.(now := to)
    case SuggestionPublished(m) => w.(stream := w.stream + [m])
    case GestureMade(e) =>
      w.(relay := w.relay.(gestures := w.relay.gestures + {e}, everGestures := w.relay.everGestures + {e}))
    case GestureUndone(e) => w.(relay := w.relay.(gestures := w.relay.gestures - {e}))
    case PostModerated(id) => w.(relay := w.relay.(posts := w.relay.posts - {id}))
    case ScreenApproves(id) => w.(gateway := Arrive(w.gateway, id))
    case GatewayGoesOn(run) => w.(gateway := GoOn(w.gateway, run))
    case BusForgets(id) => w.(gateway := Forget(w.gateway, id))
    case Crash => w.(session := Alive, consumer := Idle, journalist := Resting, sweeper := Asleep, decider := Waiting)
    case _ => w
  }

  predicate ConsumerCan(w: World, s: Step) {
    match s
    case Look(m, _, _) => w.consumer.Idle? && m < |w.stream| && m !in w.acked
    case ReadSuggestion(approved, dies) =>
      && w.consumer.Clear? && w.consumer.m < |w.stream| && w.stream[w.consumer.m].Suggestion?
      && (approved ==> w.session.Alive? && !dies && w.stream[w.consumer.m].id in w.gateway.rows)
      && (dies ==> w.session.Alive?)
    case WritePost(id, _, took, answered, _) =>
      && w.consumer.Unapproved? && w.consumer.m < |w.stream| && w.stream[w.consumer.m].Suggestion?
      && (forall p :: p in w.relay.everPosts ==> p.id != id) && id !in w.relay.posts
      && (answered ==> took)
    case Settle(_) => w.consumer.Handled?
    case _ => false
  }

  function ConsumerDoes(cfg: Config, w: World, s: Step): World
    requires ConsumerCan(w, s)
  {
    match s
    case Look(m, answered, transient) =>
      var msg := w.stream[m];
      w.(consumer :=
        if msg.Garbage? then Handled(m, SkippedUnreadable)
        else if Stale(msg, w.now, cfg.clock) then Handled(m, SkippedExpired)
        else if !answered then Handled(m, if transient then Naked else RefusedForGood)
        else if Standing(w.relay.posts, msg.id) then Handled(m, SkippedDuplicate)
        else Clear(m))
    case ReadSuggestion(approved, dies) =>
      w.(consumer := if approved then Handled(w.consumer.m, SkippedAlreadyApproved) else Unapproved(w.consumer.m),
         calls := if w.session.Alive? then w.calls + [SuggestionRead(w.stream[w.consumer.m].id)] else w.calls,
         session := if dies then Dead else w.session)
    case WritePost(id, createdAt, took, answered, transient) =>
      var p := NewPost(id, w.stream[w.consumer.m], createdAt);
      w.(relay :=
           if took then w.relay.(posts := w.relay.posts[id := p], everPosts := w.relay.everPosts + {p}) else w.relay,
         consumer := Handled(w.consumer.m, if answered then Posted else if transient then Naked else RefusedForGood))
    case Settle(took) =>
      var (m, outcome) := (w.consumer.m, w.consumer.outcome);
      w.(acked := if took && !outcome.Naked? then w.acked + {m} else w.acked,
         log := w.log + [(m, outcome)],
         consumer := Idle)
  }

  predicate JournalistCan(w: World, s: Step) {
    match s
    case LookForLine(_, _) => w.journalist.Resting?
    case WriteLine(_) => w.journalist.Unlined?
    case _ => false
  }

  function JournalistDoes(w: World, s: Step): World
    requires JournalistCan(w, s)
  {
    match s
    case LookForLine(report, answered) =>
      var reference := LineReference(report);
      w.(journalist := if answered && reference !in w.relay.journal then Unlined(reference) else Resting)
    case WriteLine(took) =>
      w.(relay := if took then w.relay.(journal := w.relay.journal + [w.journalist.reference]) else w.relay,
         journalist := Resting)
  }

  predicate SweeperCan(w: World, s: Step) {
    match s
    case SweepReads(order) => w.sweeper.Asleep? && Enumerates(order, w.relay.posts)
    case SweepNext(_) => w.sweeper.Sweeping? && w.sweeper.todo != []
    case _ => false
  }

  function SweeperDoes(cfg: Config, w: World, s: Step): World
    requires SweeperCan(w, s)
  {
    match s
    case SweepReads(order) => w.(sweeper := if order == [] then Asleep else Sweeping(w.now, order))
    case SweepNext(took) =>
      var Sweeping(at, todo) := w.sweeper;
      var p := todo[0];
      var deletes := took && Deletes(VerdictOn(p.about, p.createdAt, at, cfg.clock));
      w.(relay := if deletes then w.relay.(posts := w.relay.posts - {p.id}) else w.relay,
         sweeper := if todo[1..] == [] then Asleep else Sweeping(at, todo[1..]))
  }

  /** Whether the first item asks the Gateway to approve. */
  predicate Approves(w: World) {
    && w.decider.Working? && w.decider.todo != []
    && w.decider.todo[0].Act? && !w.decider.todo[0].d.gesture.Refuse?
    && w.decider.todo[0].post.about.Some? && w.session.Alive?
  }

  predicate DeciderCan(cfg: Config, w: World, s: Step) {
    var d := w.decider;
    match s
    case Refresh(_) => d.Waiting?
    case ReadPosts(order) => d.Waiting? && Enumerates(order, w.relay.posts)
    case ReadGestures(served) => d.Read? && Serves(w.relay, cfg.clerk, d.posts, served)
    case ReadAnswers => d.Seen?
    case GiveUpTick => d.Read? || d.Seen?
    case NextItem(_) => d.Working? && d.todo != []
    case GatewayAnswers(answer) =>
      d.Asking? && d.run < |w.gateway.runs| && Truthful(w.gateway.runs[d.run].phase, answer)
    case DeleteDecided(_) => d.Deleting?
    case SayInThread(_) => d.Saying?
    case _ => false
  }

  function Resume(seen: seq<Event>, spent: set<string>, todo: seq<Item>): Decider {
    if todo == [] then Waiting else Working(seen, spent, todo)
  }

  function Answered(w: World, item: Item, reply: Reply, took: bool): RelayState {
    if took then w.relay.(answers := w.relay.answers + [Answer(item.post.id, item.d.gestureId, reply)]) else w.relay
  }

  function Deleted(w: World, post: Post, took: bool): RelayState {
    if took then w.relay.(posts := w.relay.posts - {post.id}) else w.relay
  }

  function CallFor(item: Item): Call
    requires item.Act? && item.post.about.Some?
  {
    Approval(item, item.post.about.value.suggestionId,
      if item.d.gesture.ApproveEdited? then Some(item.d.gesture.text) else None)
  }

  /** The first item: one request, or nothing. An approval is asked for and waited on. */
  function ItemDoes(cfg: Config, w: World, took: bool): World
    requires w.decider.Working? && w.decider.todo != []
  {
    var Working(seen, spent, todo) := w.decider;
    var item, rest := todo[0], todo[1..];
    var next := w.(decider := Resume(seen, spent, rest));
    match item
    case Stranger(_, _) => next.(relay := Answered(w, item, NotTheOwner, took))
    case Late(_, _) => next.(relay := Answered(w, item, Reply.Expired, took))
    case Act(post, d, told) =>
      if post.about.None? then next
      else if d.gesture.Refuse? then next.(relay := Deleted(w, post, took))
      else if w.session.Dead? then if told then next else next.(relay := Answered(w, item, Revoked, took))
      else
        w.(gateway := Arrive(w.gateway, post.about.value.suggestionId),
           calls := w.calls + [CallFor(item)],
           decider := Asking(seen, spent, item, |w.gateway.runs|, rest))
  }

  /** The Gateway's answer, or the end of the wait for it: the clock is read now, and what
      the answer asks for comes next. */
  function AnswerDoes(cfg: Config, w: World, answer: GatewayAnswer): World
    requires w.decider.Asking? && w.decider.run < |w.gateway.runs|
  {
    var Asking(seen, spent, item, run, todo) := w.decider;
    var heard := w.(
      gateway := if answer.NoUsableAnswer? then w.gateway else Close(w.gateway, run),
      session := if answer.Unauthenticated? then Dead else w.session);
    var near := ExpiresWithin(item.post.about, w.now, NotRecordedWindow(cfg.decision), cfg.clock);
    match AfterGateway(answer, item.Act? && item.told, near)
    case DeletePost => heard.(decider := Deleting(seen, spent, item, todo))
    case Say(reply) => heard.(decider := Saying(seen, spent, item, reply, todo))
    case Wait => heard.(decider := Resume(seen, spent, todo))
  }

  function DeciderDoes(cfg: Config, w: World, s: Step): World
    requires DeciderCan(cfg, w, s)
  {
    match s
    case Refresh(result) => if result.Some? then w.(session := result.value) else w
    case ReadPosts(order) => w.(decider := if order == [] then Waiting else Read(w.now, order))
    case ReadGestures(served) =>
      var others := ByOthers(served, cfg.clerk);
      w.(decider := if others == [] then Waiting else Seen(w.decider.at, w.decider.posts, others))
    case ReadAnswers =>
      var Seen(at, posts, seen) := w.decider;
      var spent, told := SpentOn(w.relay.answers, posts), ToldOn(w.relay.answers, posts);
      w.(decider := Resume(seen, spent, Todo(cfg, at, posts, seen, spent, told)))
    case GiveUpTick => w.(decider := Waiting)
    case NextItem(took) => ItemDoes(cfg, w, took)
    case GatewayAnswers(answer) => AnswerDoes(cfg, w, answer)
    case DeleteDecided(took) =>
      var Deleting(seen, spent, item, todo) := w.decider;
      w.(relay := Deleted(w, item.post, took), decider := Resume(seen, spent, todo))
    case SayInThread(took) =>
      var Saying(seen, spent, item, reply, todo) := w.decider;
      w.(relay := Answered(w, item, reply, took), decider := Resume(seen, spent, todo))
  }

  predicate Can(cfg: Config, w: World, s: Step) {
    EnvironmentCan(cfg, w, s) || ConsumerCan(w, s) || JournalistCan(w, s) || SweeperCan(w, s) || DeciderCan(cfg, w, s)
  }

  function Do(cfg: Config, w: World, s: Step): World
    requires Can(cfg, w, s)
  {
    if ConsumerCan(w, s) then ConsumerDoes(cfg, w, s)
    else if JournalistCan(w, s) then JournalistDoes(w, s)
    else if SweeperCan(w, s) then SweeperDoes(cfg, w, s)
    else if DeciderCan(cfg, w, s) then DeciderDoes(cfg, w, s)
    else EnvironmentDoes(cfg, w, s)
  }

  /** Where a run ends, if every step of it could be taken. */
  function Run(cfg: Config, w: World, steps: seq<Step>): Option<World> {
    if steps == [] then Some(w)
    else
      match Run(cfg, w, steps[..|steps| - 1])
      case None => None
      case Some(v) => if Can(cfg, v, steps[|steps| - 1]) then Some(Do(cfg, v, steps[|steps| - 1])) else None
  }

  ghost predicate Reachable(cfg: Config, w: World) {
    exists now: I64, steps :: Run(cfg, Start(now), steps) == Some(w)
  }
}

/** The clerk's session on the Companion Gateway: one refresh token in a file, one device
    token in memory behind a lock, and a server that replaces both on every refresh. Any
    number of tasks share them; each step is one request, one critical section, or one
    thing the world does, and a crash may come between any two. */
module Sessions {
  import opened Strings

  // ---------------------------------------------------------------- the world

  /** A device token in memory: which pair it belongs to, when it was kept, and for how
      long it was issued. */
  datatype Held = Held(pair: nat, since: int, lifetime: nat) {
    predicate IsFresh(now: int) {
      since + lifetime - now >= lifetime / 5
    }
  }

  /** Why a refresh is made: inside a request for a device token, between a request's two
      sends, or on the loop's own schedule. */
  datatype Cause = ForToken(retry: bool) | BetweenSends | OnSchedule

  datatype Result = Answered | Unauthenticated | Failed

  datatype Place =
    | Idle
    | WantsToken(retry: bool)
    | WantsRefresh(cause: Cause)
    | Posting(cause: Cause, pair: nat)     // holds the lock; the file was read
    | Storing(cause: Cause, pair: nat)     // holds the lock; the server answered
    | Sending(pair: nat, retry: bool)
    | Ended(result: Result)
  {
    predicate HoldsTheLock() {
      Posting? || Storing?
    }
  }

  /** A task, and what its current request has cost so far. */
  datatype Task = Task(place: Place, sends: nat, refreshes: nat)

  /** The pair of tokens the server would honour, and until when. */
  datatype Server = Server(pair: nat, revoked: bool, deviceDies: int, refreshDies: int)

  datatype World = World(
    now: int,
    server: Server,
    file: nat,                 // the pair whose refresh token the file holds
    device: Option<Held>,
    lock: Option<nat>,         // the task inside the critical section
    tasks: seq<Task>,
    adrift: set<nat>,          // the pairs of refreshes given up on that may still arrive
    unstored: bool)            // the last rotation's token never reached the file

  datatype Config = Config(lifetime: nat, refreshLifetime: nat)

  predicate AcceptsRefresh(w: World, pair: nat) {
    pair == w.server.pair && !w.server.revoked && w.now < w.server.refreshDies
  }

  predicate AcceptsDevice(w: World, pair: nat) {
    pair == w.server.pair && !w.server.revoked && w.now < w.server.deviceDies
  }

  function Start(now: int, server: Server, tasks: nat): World {
    World(now, server, server.pair, None, None, seq(tasks, _ => Task(Idle, 0, 0)), {}, false)
  }

  // ---------------------------------------------------------------- steps

  /** How a refresh's request went: the server's answer arrived, or it did not and the
      request had already arrived, never will, or still may. */
  datatype Delivery = Heard | LostAfter | NeverArrives | StillOut

  datatype Step =
    | TimePasses(to: int)
    | Revoke
    | Arrives(pair: nat)
    | Crash
    | Begin(t: nat)
    | BeginRefresh(t: nat)
    | TakeToken(t: nat, readable: bool)
    | TakeLock(t: nat, readable: bool)
    | Post(t: nat, delivery: Delivery)
    | Store(t: nat, renamed: bool)
    | Send(t: nat, heard: bool)
    | Rest(t: nat)

  predicate At(w: World, t: nat, p: Place -> bool) {
    t < |w.tasks| && p(w.tasks[t].place)
  }

  predicate Can(w: World, s: Step) {
    match s
    case TimePasses(to) => w.now <= to
    case Revoke => true
    case Arrives(pair) => pair in w.adrift
    case Crash => true
    case Begin(t) => At(w, t, (p: Place) => p.Idle?)
    case BeginRefresh(t) => At(w, t, (p: Place) => p.Idle?)
    case TakeToken(t, _) => At(w, t, (p: Place) => p.WantsToken?) && w.lock.None?
    case TakeLock(t, _) => At(w, t, (p: Place) => p.WantsRefresh?) && w.lock.None?
    case Post(t, _) => At(w, t, (p: Place) => p.Posting?)
    case Store(t, _) => At(w, t, (p: Place) => p.Storing?)
    case Send(t, _) => At(w, t, (p: Place) => p.Sending?)
    case Rest(t) => At(w, t, (p: Place) => p.Ended?)
  }

  function Put(w: World, t: nat, task: Task): World
    requires t < |w.tasks|
  {
    w.(tasks := w.tasks[t := task])
  }

  function Goes(w: World, t: nat, p: Place): World
    requires t < |w.tasks|
  {
    Put(w, t, w.tasks[t].(place := p))
  }

  /** The server replaces both tokens; from then on the file's is dead. */
  function Rotated(cfg: Config, w: World): World {
    w.(server := Server(w.server.pair + 1, w.server.revoked, w.now + cfg.lifetime, w.now + cfg.refreshLifetime),
       unstored := true)
  }

  /** The start of a refresh, lock in hand: whatever was held is dropped, the file read. */
  function StartsRefresh(w: World, t: nat, cause: Cause, readable: bool): World
    requires t < |w.tasks|
  {
    if readable then
      Put(w.(device := None, lock := Some(t)), t,
        w.tasks[t].(place := Posting(cause, w.file), refreshes := w.tasks[t].refreshes + 1))
    else Goes(w.(device := None), t, Ended(Failed))
  }

  /** Where a task goes on once its refresh has stored `pair`. */
  function After(cause: Cause, pair: nat): Place {
    match cause
    case ForToken(retry) => Sending(pair, retry)
    case BetweenSends => WantsToken(true)
    case OnSchedule => Ended(Answered)
  }

  function Posted(cfg: Config, w: World, t: nat, delivery: Delivery): World
    requires t < |w.tasks| && w.tasks[t].place.Posting?
  {
    var Posting(cause, pair) := w.tasks[t].place;
    var accepts := AcceptsRefresh(w, pair);
    match delivery
    case Heard =>
      if accepts then Goes(Rotated(cfg, w), t, Storing(cause, pair + 1))
      else Goes(w.(lock := None), t, Ended(Unauthenticated))
    case LostAfter =>
      Goes((if accepts then Rotated(cfg, w) else w).(lock := None), t, Ended(Failed))
    case NeverArrives => Goes(w.(lock := None), t, Ended(Failed))
    case StillOut => Goes(w.(lock := None, adrift := w.adrift + {pair}), t, Ended(Failed))
  }

  /** The file first, then the slot. */
  function Stored(cfg: Config, w: World, t: nat, renamed: bool): World
    requires t < |w.tasks| && w.tasks[t].place.Storing?
  {
    var Storing(cause, pair) := w.tasks[t].place;
    if renamed then
      Goes(w.(file := pair, unstored := false, device := Some(Held(pair, w.now, cfg.lifetime)), lock := None),
        t, After(cause, pair))
    else Goes(w.(lock := None), t, Ended(Failed))
  }

  function Sent(w: World, t: nat, heard: bool): World
    requires t < |w.tasks| && w.tasks[t].place.Sending?
  {
    var Sending(pair, retry) := w.tasks[t].place;
    var next :=
      if !heard then Ended(Failed)
      else if AcceptsDevice(w, pair) then Ended(Answered)
      else if retry then Ended(Unauthenticated)
      else WantsRefresh(BetweenSends);
    Put(w, t, w.tasks[t].(place := next, sends := w.tasks[t].sends + 1))
  }

  function Do(cfg: Config, w: World, s: Step): World
    requires Can(w, s)
  {
    match s
    case TimePasses(to) => w.(now := to)
    case Revoke => w.(server := w.server.(revoked := true))
    case Arrives(pair) =>
      (if AcceptsRefresh(w, pair) then Rotated(cfg, w) else w).(adrift := w.adrift - {pair})
    case Crash =>
      var adrift := set t | 0 <= t < |w.tasks| && w.tasks[t].place.Posting? :: w.tasks[t].place.pair;
      w.(device := None, lock := None, tasks := seq(|w.tasks|, _ => Task(Idle, 0, 0)), adrift := w.adrift + adrift)
    case Begin(t) => Put(w, t, Task(WantsToken(false), 0, 0))
    case BeginRefresh(t) => Put(w, t, Task(WantsRefresh(OnSchedule), 0, 0))
    case TakeToken(t, readable) =>
      if w.device.Some? && w.device.value.IsFresh(w.now) then
        Goes(w, t, Sending(w.device.value.pair, w.tasks[t].place.retry))
      else StartsRefresh(w, t, ForToken(w.tasks[t].place.retry), readable)
    case TakeLock(t, readable) => StartsRefresh(w, t, w.tasks[t].place.cause, readable)
    case Post(t, delivery) => Posted(cfg, w, t, delivery)
    case Store(t, renamed) => Stored(cfg, w, t, renamed)
    case Send(t, heard) => Sent(w, t, heard)
    case Rest(t) => Goes(w, t, Idle)
  }

  function Run(cfg: Config, w: World, steps: seq<Step>): Option<World> {
    if steps == [] then Some(w)
    else
      match Run(cfg, w, steps[..|steps| - 1])
      case None => None
      case Some(v) => if Can(v, steps[|steps| - 1]) then Some(Do(cfg, v, steps[|steps| - 1])) else None
  }

  ghost predicate Reachable(cfg: Config, w: World) {
    exists now: int, server: Server, tasks: nat, steps: seq<Step> :: Run(cfg, Start(now, server, tasks), steps) == Some(w)
  }

  // ---------------------------------------------------------------- what every run keeps

  /** What the one task in the critical section has in hand. */
  ghost predicate LockOk(w: World) {
    && (forall t: nat :: t < |w.tasks| && w.tasks[t].place.HoldsTheLock() ==> w.lock == Some(t))
    && (w.lock.Some? ==> w.lock.value < |w.tasks| && w.tasks[w.lock.value].place.HoldsTheLock() && w.device.None?)
  }

  ghost predicate InHand(w: World, p: Place) {
    match p
    case Posting(_, pair) => pair == w.file
    case Storing(_, pair) => pair == w.server.pair && w.unstored
    case Sending(pair, _) => pair <= w.server.pair && pair <= w.file
    case _ => true
  }

  /** The file is one rotation behind at most, and that only when the last rotation's token
      did not reach it; while a device token is held it is not, and no stray refresh can
      make it so. */
  ghost predicate FileOk(w: World) {
    && w.server.pair == w.file + (if w.unstored then 1 else 0)
    && (w.device.Some? ==> w.device.value.pair == w.file && !w.unstored && forall a :: a in w.adrift ==> a < w.file)
    && forall a :: a in w.adrift ==> a <= w.file
  }

  /** What a request has cost by the place it is at. */
  ghost predicate CostOk(t: Task) {
    match t.place
    case WantsToken(retry) => if retry then t.sends == 1 && t.refreshes <= 2 else t.sends == 0 && t.refreshes == 0
    case WantsRefresh(cause) => !cause.ForToken? && RefreshCost(t.(refreshes := t.refreshes + 1), cause)
    case Posting(cause, _) => RefreshCost(t, cause)
    case Storing(cause, _) => RefreshCost(t, cause)
    case Sending(_, retry) => if retry then t.sends == 1 && t.refreshes <= 3 else t.sends == 0 && t.refreshes <= 1
    case _ => t.sends <= 2 && t.refreshes <= 3
  }

  predicate RefreshCost(t: Task, cause: Cause) {
    match cause
    case ForToken(retry) => if retry then t.sends == 1 && t.refreshes <= 3 else t.sends == 0 && t.refreshes <= 1
    case BetweenSends => t.sends == 1 && t.refreshes <= 2
    case OnSchedule => t.sends == 0 && t.refreshes <= 1
  }

  ghost predicate Inv(w: World) {
    && LockOk(w) && FileOk(w)
    && forall t: nat :: t < |w.tasks| ==> InHand(w, w.tasks[t].place) && CostOk(w.tasks[t])
  }

  lemma WorldKeeps(cfg: Config, w: World, s: Step)
    requires Inv(w) && Can(w, s) && (s.TimePasses? || s.Revoke? || s.Arrives? || s.Crash?)
    ensures Inv(Do(cfg, w, s))
  {
  }

  lemma StartingKeeps(w: World, t: nat, cause: Cause, readable: bool)
    requires Inv(w) && t < |w.tasks| && w.lock.None? && !w.tasks[t].place.HoldsTheLock()
    requires RefreshCost(w.tasks[t].(refreshes := w.tasks[t].refreshes + 1), cause)
    ensures Inv(StartsRefresh(w, t, cause, readable))
  {
  }

  lemma TakingKeeps(cfg: Config, w: World, s: Step)
    requires Inv(w) && Can(w, s) && (s.TakeToken? || s.TakeLock?)
    ensures Inv(Do(cfg, w, s))
  {
    var t, place := s.t, w.tasks[s.t].place;
    assert CostOk(w.tasks[t]);
    if s.TakeLock? {
      StartingKeeps(w, t, place.cause, s.readable);
    } else if !(w.device.Some? && w.device.value.IsFresh(w.now)) {
      StartingKeeps(w, t, ForToken(place.retry), s.readable);
    } else {
      HoldingKeeps(w, t);
    }
  }

  lemma HoldingKeeps(w: World, t: nat)
    requires Inv(w) && t < |w.tasks| && w.tasks[t].place.WantsToken? && w.device.Some?
    ensures Inv(Goes(w, t, Sending(w.device.value.pair, w.tasks[t].place.retry)))
  {
  }

  lemma PostKeeps(cfg: Config, w: World, t: nat, delivery: Delivery)
    requires Inv(w) && Can(w, Post(t, delivery))
    ensures Inv(Do(cfg, w, Post(t, delivery)))
  {
  }

  lemma StoreKeeps(cfg: Config, w: World, t: nat, renamed: bool)
    requires Inv(w) && Can(w, Store(t, renamed))
    ensures Inv(Do(cfg, w, Store(t, renamed)))
  {
  }

  lemma OtherStepsKeep(cfg: Config, w: World, s: Step)
    requires Inv(w) && Can(w, s) && (s.Begin? || s.BeginRefresh? || s.Rest?)
    ensures Inv(Do(cfg, w, s))
  {
  }

  lemma SendKeeps(cfg: Config, w: World, t: nat, heard: bool)
    requires Inv(w) && Can(w, Send(t, heard))
    ensures Inv(Do(cfg, w, Send(t, heard)))
  {
    assert CostOk(w.tasks[t]);
  }

  /** Whatever the tasks, the server and the world do. */
  lemma StepKeeps(cfg: Config, w: World, s: Step)
    requires Inv(w) && Can(w, s)
    ensures Inv(Do(cfg, w, s))
  {
    match s
    case TakeToken(_, _) => TakingKeeps(cfg, w, s);
    case TakeLock(_, _) => TakingKeeps(cfg, w, s);
    case Post(t, delivery) => PostKeeps(cfg, w, t, delivery);
    case Store(t, renamed) => StoreKeeps(cfg, w, t, renamed);
    case Begin(_) => OtherStepsKeep(cfg, w, s);
    case BeginRefresh(_) => OtherStepsKeep(cfg, w, s);
    case Send(t, heard) => SendKeeps(cfg, w, t, heard);
    case Rest(_) => OtherStepsKeep(cfg, w, s);
    case _ => WorldKeeps(cfg, w, s);
  }

  lemma StartKeeps(now: int, server: Server, tasks: nat)
    ensures Inv(Start(now, server, tasks))
  {
  }

  lemma {:induction false} RunKeeps(cfg: Config, w: World, steps: seq<Step>)
    requires Inv(w) && Run(cfg, w, steps).Some?
    ensures Inv(Run(cfg, w, steps).value)
  {
    if steps == [] {
    } else {
      var init := steps[..|steps| - 1];
      RunKeeps(cfg, w, init);
      StepKeeps(cfg, Run(cfg, w, init).value, steps[|steps| - 1]);
    }
  }

  lemma ReachableKeeps(cfg: Config, w: World)
    requires Reachable(cfg, w)
    ensures Inv(w)
  {
    var now: int, server: Server, tasks: nat, steps: seq<Step> :| Run(cfg, Start(now, server, tasks), steps) == Some(w);
    StartKeeps(now, server, tasks);
    RunKeeps(cfg, Start(now, server, tasks), steps);
  }

  // ---------------------------------------------------------------- what that means

  /** A device token is held only while the file holds the server's own refresh token, and
      the file's is behind only when the last rotation's did not reach it. */
  lemma HeldMeansStored(cfg: Config, w: World)
    requires Reachable(cfg, w)
    ensures w.device.Some? ==> w.device.value.pair == w.server.pair == w.file
    ensures w.file != w.server.pair <==> w.unstored
    ensures w.file <= w.server.pair <= w.file + 1
  {
    ReachableKeeps(cfg, w);
  }

  /** At most one refresh is under way. */
  lemma OneRefreshAtATime(cfg: Config, w: World, t: nat, u: nat)
    requires Reachable(cfg, w) && t < |w.tasks| && u < |w.tasks|
    requires w.tasks[t].place.HoldsTheLock() && w.tasks[u].place.HoldsTheLock()
    ensures t == u
  {
    ReachableKeeps(cfg, w);
  }

  /** While a task refreshes, no step of another touches the file, the slot or the lock. */
  lemma OthersKeepOut(cfg: Config, w: World, t: nat, s: Step)
    requires Inv(w) && Can(w, s) && t < |w.tasks| && w.tasks[t].place.HoldsTheLock()
    requires !s.Crash? && (s.Post? || s.Store? ==> s.t != t)
    ensures var v := Do(cfg, w, s);
      v.file == w.file && v.device == w.device && v.lock == w.lock && v.tasks[t] == w.tasks[t]
  {
  }

  // ---------------------------------------------------------------- a refused session

  /** A refresh that is answered is refused exactly when the device was revoked, its
      refresh token expired, or the file's was rotated away without being replaced. */
  lemma RefusedRefresh(cfg: Config, w: World, t: nat)
    requires Inv(w) && Can(w, Post(t, Heard))
    ensures Do(cfg, w, Post(t, Heard)).tasks[t].place == Ended(Unauthenticated)
       <==> w.server.revoked || w.server.refreshDies <= w.now || w.unstored
  {
  }

  /** Only two steps end in `Unauthenticated`: a refused refresh, and a refused retry. */
  lemma TwoWaysOut(cfg: Config, w: World, s: Step, t: nat)
    requires Inv(w) && Can(w, s) && t < |w.tasks|
    requires w.tasks[t].place != Ended(Unauthenticated) && Do(cfg, w, s).tasks[t].place == Ended(Unauthenticated)
    ensures s == Post(t, Heard) || (s == Send(t, true) && w.tasks[t].place.Sending? && w.tasks[t].place.retry)
  {
  }

  /** A retry that is answered is refused exactly when the device was revoked, its token ran
      out on the way, or the tokens were rotated since it was taken. */
  lemma RefusedRetry(cfg: Config, w: World, t: nat)
    requires Inv(w) && At(w, t, (p: Place) => p.Sending? && p.retry)
    ensures Do(cfg, w, Send(t, true)).tasks[t].place == Ended(Unauthenticated)
       <==> w.server.revoked || w.server.deviceDies <= w.now || w.tasks[t].place.pair < w.server.pair
  {
    assert InHand(w, w.tasks[t].place);
  }

  /** A step by which the server replaces its tokens. */
  predicate Rotates(cfg: Config, w: World, s: Step) {
    Can(w, s) && Do(cfg, w, s).server.pair > w.server.pair
  }

  lemma PairRises(cfg: Config, w: World, s: Step)
    requires Can(w, s)
    ensures Do(cfg, w, s).server.pair >= w.server.pair
  {
  }

  /** Somewhere in the run the tokens were rotated. */
  ghost predicate RotatedIn(cfg: Config, w: World, steps: seq<Step>) {
    steps != [] &&
    (RotatedIn(cfg, w, steps[..|steps| - 1])
     || (Run(cfg, w, steps[..|steps| - 1]).Some? && Rotates(cfg, Run(cfg, w, steps[..|steps| - 1]).value, steps[|steps| - 1])))
  }

  lemma {:induction false} RotatedMeansNewer(cfg: Config, w: World, v: World, steps: seq<Step>)
    requires Run(cfg, w, steps) == Some(v)
    ensures w.server.pair <= v.server.pair
    ensures w.server.pair < v.server.pair <==> RotatedIn(cfg, w, steps)
    decreases |steps|
  {
    if steps == [] {
    } else {
      var init, last := steps[..|steps| - 1], steps[|steps| - 1];
      var u := Run(cfg, w, init).value;
      RotatedMeansNewer(cfg, w, u, init);
      PairRises(cfg, u, last);
    }
  }

  /** From the moment a request has its token for the retry: its answer is `Unauthenticated`
      exactly when by then the device is revoked, the token has run out, or somebody's
      refresh has rotated the tokens in between. */
  lemma RetryRefusedExactlyWhen(cfg: Config, w: World, v: World, t: nat, steps: seq<Step>)
    requires Inv(w) && At(w, t, (p: Place) => p.Sending? && p.retry) && w.tasks[t].place.pair == w.server.pair
    requires Run(cfg, w, steps) == Some(v) && t < |v.tasks| && v.tasks[t].place == w.tasks[t].place
    ensures Can(v, Send(t, true))
    ensures Do(cfg, v, Send(t, true)).tasks[t].place == Ended(Unauthenticated)
       <==> v.server.revoked || v.server.deviceDies <= v.now || RotatedIn(cfg, w, steps)
  {
    RunKeeps(cfg, w, steps);
    RotatedMeansNewer(cfg, w, v, steps);
    RefusedRetry(cfg, v, t);
  }

  /** A step that no other task rotates the tokens with. */
  predicate RotatesForNoOther(t: nat, s: Step) {
    !s.Arrives? && !s.Crash? && (s.Post? ==> s.t == t)
  }

  /** So long as nobody else rotates, a token about to be sent is the server's own. */
  lemma {:induction false} OwnTokenIsLive(cfg: Config, w: World, v: World, t: nat, steps: seq<Step>)
    requires Inv(w) && t < |w.tasks| && !w.tasks[t].place.Sending? && Run(cfg, w, steps) == Some(v)
    requires forall s :: s in steps ==> RotatesForNoOther(t, s)
    ensures Inv(v) && t < |v.tasks|
    ensures v.tasks[t].place.Sending? ==> v.tasks[t].place.pair == v.server.pair
    decreases |steps|
  {
    if steps == [] {
    } else {
      var init, last := steps[..|steps| - 1], steps[|steps| - 1];
      assert steps == init + [last];
      var u := Run(cfg, w, init).value;
      OwnTokenIsLive(cfg, w, u, t, init);
      StepKeeps(cfg, u, last);
      LiveStays(cfg, u, t, last);
    }
  }

  lemma LiveStays(cfg: Config, w: World, t: nat, s: Step)
    requires Inv(w) && Can(w, s) && t < |w.tasks| && RotatesForNoOther(t, s)
    requires w.tasks[t].place.Sending? ==> w.tasks[t].place.pair == w.server.pair
    ensures var v := Do(cfg, w, s);
      t < |v.tasks| && (v.tasks[t].place.Sending? ==> v.tasks[t].place.pair == v.server.pair)
  {
  }

  /** With no refresh of another's in between, a request answered `Unauthenticated` met a
      revoked device, a dead refresh token, or a device token that ran out on the way. */
  lemma UnauthenticatedMeansDead(cfg: Config, w: World, v: World, t: nat, steps: seq<Step>, s: Step)
    requires Inv(w) && t < |w.tasks| && !w.tasks[t].place.Sending? && Run(cfg, w, steps) == Some(v)
    requires forall s :: s in steps ==> RotatesForNoOther(t, s)
    requires Can(v, s) && t < |v.tasks| && v.tasks[t].place != Ended(Unauthenticated)
    requires Do(cfg, v, s).tasks[t].place == Ended(Unauthenticated)
    ensures s == Post(t, Heard) || s == Send(t, true)
    ensures s.Post? ==> v.server.revoked || v.server.refreshDies <= v.now || v.unstored
    ensures s.Send? ==> v.server.revoked || v.server.deviceDies <= v.now
  {
    OwnTokenIsLive(cfg, w, v, t, steps);
    TwoWaysOut(cfg, v, s, t);
    if s.Post? {
      RefusedRefresh(cfg, v, t);
    }
  }

  /** A session the clerk cannot bring back: revoked, or its file's token rotated away with
      no refresh left to store the new one. */
  predicate IsDead(w: World) {
    w.server.revoked || (w.unstored && forall t: nat :: t < |w.tasks| ==> !w.tasks[t].place.Storing?)
  }

  /** It stays dead whatever happens, and from then on every answered refresh is refused and
      no request is answered. */
  lemma DeadForGood(cfg: Config, w: World, s: Step)
    requires Inv(w) && Can(w, s) && IsDead(w)
    ensures IsDead(Do(cfg, w, s))
    ensures s.Post? && s.delivery.Heard? ==> Do(cfg, w, s).tasks[s.t].place == Ended(Unauthenticated)
    ensures s.Send? ==> Do(cfg, w, s).tasks[s.t].place != Ended(Answered)
  {
    if s.Send? {
      assert InHand(w, w.tasks[s.t].place);
    }
  }

  // ---------------------------------------------------------------- the server's side

  /** A refresh's request that arrives with this step, and the pair whose token it carries. */
  function Arriving(w: World, s: Step): Option<nat> {
    match s
    case Post(t, delivery) =>
      if t < |w.tasks| && w.tasks[t].place.Posting? && (delivery.Heard? || delivery.LostAfter?) then Some(w.tasks[t].place.pair) else None
    case Arrives(pair) => Some(pair)
    case _ => None
  }

  /** The server rotates its tokens exactly when the refresh token that arrives is its own, not
      revoked and not expired, whether or not anybody hears of it; and both new tokens live as
      long as they are to from then on. */
  lemma RotatesExactlyWhen(cfg: Config, w: World, s: Step)
    requires Can(w, s)
    ensures var good := Arriving(w, s) == Some(w.server.pair) && !w.server.revoked && w.now < w.server.refreshDies;
      Do(cfg, w, s).server ==
        if good then Server(w.server.pair + 1, false, w.now + cfg.lifetime, w.now + cfg.refreshLifetime)
        else w.server.(revoked := w.server.revoked || s.Revoke?)
  {
  }

  /** A refresh given up on may still arrive: one whose request is still out, or that a crash
      cut off. */
  lemma MayStillArrive(cfg: Config, w: World, s: Step, pair: nat)
    requires Can(w, s)
    ensures pair in Do(cfg, w, s).adrift <==>
      || (pair in w.adrift && s != Arrives(pair))
      || (s.Post? && s.delivery.StillOut? && w.tasks[s.t].place.pair == pair)
      || (s.Crash? && exists t: nat :: t < |w.tasks| && w.tasks[t].place.Posting? && w.tasks[t].place.pair == pair)
  {
  }

  // ---------------------------------------------------------------- another task in between

  lemma Next(cfg: Config, w: World, s: Step) returns (v: World)
    requires Reachable(cfg, w) && Can(w, s)
    ensures v == Do(cfg, w, s) && Reachable(cfg, v)
  {
    v := Do(cfg, w, s);
    var now: int, server: Server, tasks: nat, steps: seq<Step> :| Run(cfg, Start(now, server, tasks), steps) == Some(w);
    assert (steps + [s])[..|steps + [s]| - 1] == steps;
    assert Run(cfg, Start(now, server, tasks), steps + [s]) == Some(v);
  }

  lemma Begun(cfg: Config, now: int, server: Server, tasks: nat) returns (w: World)
    ensures w == Start(now, server, tasks) && Reachable(cfg, w)
  {
    w := Start(now, server, tasks);
    assert Run(cfg, w, []) == Some(w);
  }

  /** One whole refresh by a task that waits for it. */
  lemma RefreshGoesThrough(cfg: Config, w: World, t: nat) returns (v: World)
    requires Reachable(cfg, w) && At(w, t, (p: Place) => p.WantsRefresh? && !p.cause.ForToken?) && w.lock.None?
    requires !w.unstored && !w.server.revoked && w.now < w.server.refreshDies
    requires 0 < cfg.lifetime && 0 < cfg.refreshLifetime
    ensures Reachable(cfg, v)
    ensures var cause, pair := w.tasks[t].place.cause, w.server.pair + 1;
      v == w.(
        server := Server(pair, false, w.now + cfg.lifetime, w.now + cfg.refreshLifetime),
        file := pair, device := Some(Held(pair, w.now, cfg.lifetime)),
        tasks := w.tasks[t := Task(After(cause, pair), w.tasks[t].sends, w.tasks[t].refreshes + 1)])
  {
    ReachableKeeps(cfg, w);
    v := Next(cfg, w, TakeLock(t, true));
    LockTaken(cfg, w, t);
    v := Next(cfg, v, Post(t, Heard));
    v := Next(cfg, v, Store(t, true));
  }

  lemma LockTaken(cfg: Config, w: World, t: nat)
    requires Can(w, TakeLock(t, true))
    ensures var cause, task := w.tasks[t].place.cause, w.tasks[t];
      Do(cfg, w, TakeLock(t, true)) == w.(device := None, lock := Some(t),
        tasks := w.tasks[t := Task(Posting(cause, w.file), task.sends, task.refreshes + 1)])
  {
  }

  /** A task that waits for a token gets the one held. */
  lemma TokenIsHanded(cfg: Config, w: World, t: nat) returns (v: World)
    requires Reachable(cfg, w) && At(w, t, (p: Place) => p.WantsToken?) && w.lock.None?
    requires w.device.Some? && w.device.value.IsFresh(w.now)
    ensures Reachable(cfg, v) && v == Goes(w, t, Sending(w.device.value.pair, w.tasks[t].place.retry))
  {
    v := Next(cfg, w, TakeToken(t, true));
  }

  /** Two tasks: one's scheduled refreshes fall just before each of the other's sends. The
      other is told `Unauthenticated` by a server that revoked nothing, holds an unexpired
      refresh token, and sees it in the file. */
  lemma InterleavedRefreshKills(cfg: Config, now: int) returns (w: World)
    requires 0 < cfg.lifetime && 0 < cfg.refreshLifetime
    ensures Reachable(cfg, w) && |w.tasks| == 2 && w.tasks[0].place == Ended(Unauthenticated)
    ensures !w.server.revoked && w.now < w.server.deviceDies && w.now < w.server.refreshDies
    ensures w.file == w.server.pair && !w.unstored
  {
    w := Begun(cfg, now, Server(0, false, now, now + 1), 2);
    w := Next(cfg, w, BeginRefresh(1));
    w := RefreshGoesThrough(cfg, w, 1);
    w := Next(cfg, w, Begin(0));
    w := TokenIsHanded(cfg, w, 0);
    w := RefreshAgain(cfg, w);
    w := Next(cfg, w, Send(0, true));
    w := RefreshGoesThrough(cfg, w, 0);
    w := TokenIsHanded(cfg, w, 0);
    w := RefreshAgain(cfg, w);
    w := Next(cfg, w, Send(0, true));
  }

  lemma RefreshAgain(cfg: Config, w: World) returns (v: World)
    requires Reachable(cfg, w) && |w.tasks| == 2 && w.tasks[1].place.Ended? && w.lock.None?
    requires !w.unstored && !w.server.revoked && w.now < w.server.refreshDies
    requires 0 < cfg.lifetime && 0 < cfg.refreshLifetime
    ensures Reachable(cfg, v) && |v.tasks| == 2 && v.tasks[1].place.Ended? && v.tasks[0] == w.tasks[0]
    ensures v.lock.None? && !v.unstored && v.now == w.now && v.file == v.server.pair
    ensures v.server == Server(w.server.pair + 1, false, w.now + cfg.lifetime, w.now + cfg.refreshLifetime)
  {
    v := Next(cfg, w, Rest(1));
    v := Next(cfg, v, BeginRefresh(1));
    v := RefreshGoesThrough(cfg, v, 1);
  }

  // ---------------------------------------------------------------- what a request costs

  /** At most two sends and three refreshes a request, whatever the others do. */
  lemma AtMostTwoSends(cfg: Config, w: World, t: nat)
    requires Reachable(cfg, w) && t < |w.tasks|
    ensures w.tasks[t].sends <= 2 && w.tasks[t].refreshes <= 3
  {
    ReachableKeeps(cfg, w);
    assert CostOk(w.tasks[t]);
  }

  /** Steps by which another task or a crash may take the slot. */
  predicate LeavesTheSlot(t: nat, s: Step) {
    !s.Crash? && (s.TakeToken? || s.TakeLock? || s.Store? ==> s.t == t)
  }

  /** A run in which nobody else touches the slot, and the retry asks for its token before
      four fifths of the last one's life are over. */
  ghost predicate Brisk(cfg: Config, w: World, t: nat, steps: seq<Step>) {
    steps == [] ||
    (Brisk(cfg, w, t, steps[..|steps| - 1])
     && LeavesTheSlot(t, steps[|steps| - 1])
     && (Run(cfg, w, steps[..|steps| - 1]).Some? && steps[|steps| - 1].TakeToken? ==>
         InTime(Run(cfg, w, steps[..|steps| - 1]).value)))
  }

  predicate InTime(w: World) {
    w.device.Some? ==> 5 * (w.now - w.device.value.since) < 4 * w.device.value.lifetime
  }

  /** Where a brisk request is: the retry finds a token in the slot. */
  ghost predicate OnCourse(w: World, t: nat) {
    && t < |w.tasks| && w.tasks[t].refreshes <= 2
    && (w.tasks[t].place == WantsToken(true) ==> w.device.Some?)
    && !(w.tasks[t].place.HoldsTheLock() && w.tasks[t].place.cause == ForToken(true))
  }

  /** A step that is not one of task `t`'s. */
  predicate NotOf(t: nat, s: Step) {
    s.TimePasses? || s.Revoke? || s.Arrives? || s.Crash? || s.t != t
  }

  lemma OthersLeaveTheSlot(cfg: Config, w: World, t: nat, s: Step)
    requires Inv(w) && t < |w.tasks| && Can(w, s) && LeavesTheSlot(t, s) && NotOf(t, s)
    ensures var v := Do(cfg, w, s); v.device == w.device && |v.tasks| == |w.tasks| && v.tasks[t] == w.tasks[t]
  {
  }

  lemma BriskStep(cfg: Config, w: World, t: nat, s: Step)
    requires Inv(w) && OnCourse(w, t) && Can(w, s) && LeavesTheSlot(t, s)
    requires s.TakeToken? ==> InTime(w)
    ensures OnCourse(Do(cfg, w, s), t)
  {
    if NotOf(t, s) {
      OthersLeaveTheSlot(cfg, w, t, s);
    } else {
      assert CostOk(w.tasks[t]);
      if s.TakeToken? && w.tasks[t].place == WantsToken(true) {
        assert w.device.value.IsFresh(w.now);
      }
    }
  }

  lemma {:induction false} StaysOnCourse(cfg: Config, w: World, v: World, t: nat, steps: seq<Step>)
    requires Inv(w) && OnCourse(w, t) && Run(cfg, w, steps) == Some(v) && Brisk(cfg, w, t, steps)
    ensures Inv(v) && OnCourse(v, t)
    decreases |steps|
  {
    if steps == [] {
    } else {
      var init, last := steps[..|steps| - 1], steps[|steps| - 1];
      var u := Run(cfg, w, init).value;
      StaysOnCourse(cfg, w, u, t, init);
      BriskStep(cfg, u, t, last);
      StepKeeps(cfg, u, last);
    }
  }

  /** Then a request costs two refreshes at most, from its beginning on, whatever the task's
      requests before it cost. */
  lemma TwoRefreshes(cfg: Config, w: World, v: World, t: nat, steps: seq<Step>)
    requires Inv(w) && Can(w, Begin(t)) && Run(cfg, Do(cfg, w, Begin(t)), steps) == Some(v)
    requires Brisk(cfg, Do(cfg, w, Begin(t)), t, steps)
    ensures t < |v.tasks| && v.tasks[t].refreshes <= 2
  {
    StepKeeps(cfg, w, Begin(t));
    StaysOnCourse(cfg, Do(cfg, w, Begin(t)), v, t, steps);
  }

  /** The slot is empty, or its token is past four fifths of its life. */
  predicate NothingFresh(w: World) {
    w.device.None? || w.now - w.device.value.since > w.device.value.lifetime - w.device.value.lifetime / 5
  }

  /** A step that makes the request's third refresh: the retry asks for its token and finds
      nothing fresh in the slot. */
  predicate MakesTheThird(w: World, t: nat, s: Step) {
    && s == TakeToken(t, true) && t < |w.tasks|
    && w.tasks[t].place == WantsToken(true) && w.tasks[t].refreshes == 2 && NothingFresh(w)
  }

  /** There is no other way to a third refresh. */
  lemma ThirdRefreshExactlyWhen(cfg: Config, w: World, t: nat, s: Step)
    requires Inv(w) && Can(w, s) && t < |w.tasks| && w.tasks[t].refreshes <= 2
    ensures Do(cfg, w, s).tasks[t].refreshes == 3 <==> MakesTheThird(w, t, s)
  {
    assert CostOk(w.tasks[t]);
  }

  /** A step that starts the task's count afresh. */
  predicate Restarts(t: nat, s: Step) {
    s.Crash? || ((s.Begin? || s.BeginRefresh?) && s.t == t)
  }

  ghost predicate MadeTheThird(cfg: Config, w: World, t: nat, steps: seq<Step>) {
    steps != [] &&
    (MadeTheThird(cfg, w, t, steps[..|steps| - 1])
     || (Run(cfg, w, steps[..|steps| - 1]).Some? && MakesTheThird(Run(cfg, w, steps[..|steps| - 1]).value, t, steps[|steps| - 1])))
  }

  lemma RefreshesStay(cfg: Config, w: World, t: nat, s: Step)
    requires Inv(w) && Can(w, s) && t < |w.tasks| && !Restarts(t, s)
    ensures |Do(cfg, w, s).tasks| == |w.tasks| && w.tasks[t].refreshes <= Do(cfg, w, s).tasks[t].refreshes <= 3
  {
    StepKeeps(cfg, w, s);
    assert CostOk(Do(cfg, w, s).tasks[t]);
  }

  /** So over a whole request: it has made a third refresh exactly when, somewhere in it, the
      retry found nothing fresh after two. */
  lemma {:induction false} ThreeRefreshesExactlyWhen(cfg: Config, w: World, v: World, t: nat, steps: seq<Step>)
    requires Inv(w) && t < |w.tasks| && w.tasks[t].place == WantsToken(false)
    requires Run(cfg, w, steps) == Some(v) && forall s :: s in steps ==> !Restarts(t, s)
    ensures Inv(v) && t < |v.tasks|
    ensures v.tasks[t].refreshes == 3 <==> MadeTheThird(cfg, w, t, steps)
    decreases |steps|
  {
    assert CostOk(w.tasks[t]);
    if steps == [] {
    } else {
      var init, last := steps[..|steps| - 1], steps[|steps| - 1];
      assert steps == init + [last];
      var u := Run(cfg, w, init).value;
      ThreeRefreshesExactlyWhen(cfg, w, u, t, init);
      RefreshesStay(cfg, u, t, last);
      StepKeeps(cfg, u, last);
      if u.tasks[t].refreshes <= 2 {
        ThirdRefreshExactlyWhen(cfg, u, t, last);
      }
      assert MakesTheThird(u, t, last) ==> u.tasks[t].refreshes == 2;
    }
  }

  /** One task has refreshed for its first token and is about to send it. */
  lemma FirstToken(cfg: Config, now: int) returns (w: World)
    requires 0 < cfg.refreshLifetime
    ensures Reachable(cfg, w) && w.now == now && w.lock.None? && !w.unstored
    ensures w.server == Server(1, false, now + cfg.lifetime, now + cfg.refreshLifetime)
    ensures w.tasks == [Task(Sending(1, false), 0, 1)]
  {
    w := Begun(cfg, now, Server(0, false, now, now + 1), 1);
    assert w.tasks == [Task(Idle, 0, 0)];
    w := Next(cfg, w, Begin(0));
    assert w.tasks == [Task(WantsToken(false), 0, 0)];
    w := Next(cfg, w, TakeToken(0, true));
    assert w.tasks == [Task(Posting(ForToken(false), 0), 0, 1)];
    w := Next(cfg, w, Post(0, Heard));
    assert w.tasks == [Task(Storing(ForToken(false), 1), 0, 1)];
    w := Next(cfg, w, Store(0, true));
  }

  /** Its first send comes when the token has just run out. */
  lemma SentTooLate(cfg: Config, now: int) returns (w: World)
    requires 0 < cfg.lifetime < cfg.refreshLifetime
    ensures Reachable(cfg, w) && w.tasks == [Task(WantsRefresh(BetweenSends), 1, 1)] && w.lock.None? && w.now == now + cfg.lifetime
    ensures !w.unstored && !w.server.revoked && w.now < w.server.refreshDies
  {
    w := FirstToken(cfg, now);
    w := Next(cfg, w, TimePasses(now + cfg.lifetime));
    w := Next(cfg, w, Send(0, true));
  }

  /** Slower than that, one task on its own makes three: the documented "one refresh and
      one retry" is not a bound. */
  lemma ThirdRefresh(cfg: Config, now: int) returns (w: World)
    requires 0 < cfg.lifetime < cfg.refreshLifetime
    ensures Reachable(cfg, w) && |w.tasks| == 1 && w.tasks[0].refreshes == 3 && w.tasks[0].sends == 1
    ensures !w.server.revoked
  {
    w := SentTooLate(cfg, now);
    w := RefreshGoesThrough(cfg, w, 0);
    w := Next(cfg, w, TimePasses(now + 2 * cfg.lifetime + 1));
    w := Next(cfg, w, TakeToken(0, true));
  }
}

/** The client of the Companion Gateway as it runs: the lock taken, the file read and
    rewritten, requests sent, while the other tasks that share it move in between. Each
    method is a run of the session's protocol. */
module GatewayClients {
  import opened Strings
  import opened Steps
  import F = SessionFiles
  import opened Sessions

  // ---------------------------------------------------------------- runs

  ghost predicate Leads(cfg: Config, w: World, v: World) {
    Inv(v) && exists steps :: Run(cfg, w, steps) == Some(v)
  }

  /** A step of another task, or of the world, that is not a crash. */
  predicate ByAnother(t: nat, s: Step) {
    match s
    case TimePasses(_) => true
    case Revoke => true
    case Arrives(_) => true
    case Crash => false
    case _ => s.t != t
  }

  ghost predicate ByOthersThan(t: nat, cfg: Config, w: World, v: World) {
    exists steps :: Run(cfg, w, steps) == Some(v) && forall s :: s in steps ==> ByAnother(t, s)
  }

  function RunOf(cfg: Config): (World, seq<Step>) -> Option<World> {
    (w: World, steps: seq<Step>) => Run(cfg, w, steps)
  }

  function NextOf(cfg: Config): (World, Step) -> Option<World> {
    (u: World, s: Step) => if Can(u, s) then Some(Do(cfg, u, s)) else None
  }

  lemma RunsAsSteps(cfg: Config)
    ensures Steps.Runs(RunOf(cfg), NextOf(cfg))
  {
    forall w, steps, s
      ensures RunOf(cfg)(w, steps + [s]) == Then(RunOf(cfg)(w, steps), NextOf(cfg), s)
    {
      assert (steps + [s])[..|steps + [s]| - 1] == steps;
    }
  }

  lemma LeadsOn(cfg: Config, w: World, v: World, u: World)
    requires Leads(cfg, w, v) && Leads(cfg, v, u)
    ensures Leads(cfg, w, u)
  {
    var steps :| Run(cfg, w, steps) == Some(v);
    var more :| Run(cfg, v, more) == Some(u);
    RunsAsSteps(cfg);
    RunsJoin(RunOf(cfg), NextOf(cfg), w, v, steps, more);
  }

  lemma LeadsStep(cfg: Config, w: World, s: Step)
    requires Inv(w) && Can(w, s)
    ensures Leads(cfg, w, Do(cfg, w, s))
  {
    StepKeeps(cfg, w, s);
    assert [s][..0] == [] && Run(cfg, w, []) == Some(w);
    assert Run(cfg, w, [s]) == Some(Do(cfg, w, s));
  }

  /** The others leave a task's own place alone, and while it refreshes, the file, the slot
      and the lock. */
  ghost predicate LeftAlone(t: nat, w: World, v: World) {
    && |v.tasks| == |w.tasks| && t < |w.tasks| && v.tasks[t] == w.tasks[t]
    && (w.tasks[t].place.HoldsTheLock() ==> v.file == w.file && v.device == w.device && v.lock == w.lock)
  }

  lemma OneByAnother(t: nat, cfg: Config, w: World, s: Step)
    requires Inv(w) && Can(w, s) && t < |w.tasks| && ByAnother(t, s)
    ensures LeftAlone(t, w, Do(cfg, w, s))
  {
    if w.tasks[t].place.HoldsTheLock() {
      OthersKeepOut(cfg, w, t, s);
    }
  }

  lemma {:induction false} OthersLeave(t: nat, cfg: Config, w: World, v: World, steps: seq<Step>)
    requires Inv(w) && t < |w.tasks| && Run(cfg, w, steps) == Some(v)
    requires forall s :: s in steps ==> ByAnother(t, s)
    ensures Inv(v) && LeftAlone(t, w, v)
    decreases |steps|
  {
    if steps == [] {
    } else {
      var init, last := steps[..|steps| - 1], steps[|steps| - 1];
      assert steps == init + [last];
      var u := Run(cfg, w, init).value;
      OthersLeave(t, cfg, w, u, init);
      OneByAnother(t, cfg, u, last);
      StepKeeps(cfg, u, last);
    }
  }

  lemma OthersLeaveAlone(t: nat, cfg: Config, w: World, v: World)
    requires Inv(w) && t < |w.tasks| && ByOthersThan(t, cfg, w, v)
    ensures Leads(cfg, w, v) && LeftAlone(t, w, v)
  {
    var steps :| Run(cfg, w, steps) == Some(v) && forall s :: s in steps ==> ByAnother(t, s);
    OthersLeave(t, cfg, w, v, steps);
  }

  /** The task's request has cost no more. */
  predicate SameCost(w: World, v: World, t: nat) {
    && t < |w.tasks| && t < |v.tasks|
    && v.tasks[t].sends == w.tasks[t].sends && v.tasks[t].refreshes == w.tasks[t].refreshes
  }

  /** Where a refresh's request leaves its task. */
  ghost predicate PostedTo(w: World, v: World, t: nat) {
    && t < |w.tasks| && w.tasks[t].place.Posting? && t < |v.tasks|
    && SameCost(w, v, t) && v.file == w.file && v.device.None?
    && match v.tasks[t].place
      case Storing(cause, pair) => cause == w.tasks[t].place.cause && pair == w.file + 1
      case Ended(result) =>
        v.lock.None? && !result.Answered?
        && (result.Unauthenticated? ==> v.server.revoked || v.server.refreshDies <= v.now || v.unstored)
      case _ => false
  }

  lemma PostGoes(cfg: Config, w: World, t: nat, delivery: Delivery)
    requires Inv(w) && Can(w, Post(t, delivery))
    ensures PostedTo(w, Do(cfg, w, Post(t, delivery)), t)
  {
    assert w.tasks[t].place.HoldsTheLock() && InHand(w, w.tasks[t].place);
    if delivery.Heard? {
      RefusedRefresh(cfg, w, t);
    }
  }

  /** Where the rewrite of the file leaves its task. */
  ghost predicate StoredTo(cfg: Config, w: World, v: World, t: nat, ok: bool) {
    && t < |w.tasks| && w.tasks[t].place.Storing? && SameCost(w, v, t) && v.lock.None?
    && (ok ==> v.file == w.tasks[t].place.pair && v.device == Some(Held(v.file, v.now, cfg.lifetime)))
    && (ok ==> v.tasks[t].place == After(w.tasks[t].place.cause, v.file))
    && (!ok ==> v.file == w.file && v.device.None? && v.tasks[t].place == Ended(Failed))
  }

  lemma StoreGoes(cfg: Config, w: World, t: nat, renamed: bool)
    requires Inv(w) && Can(w, Store(t, renamed))
    ensures StoredTo(cfg, w, Do(cfg, w, Store(t, renamed)), t, renamed)
  {
    assert w.tasks[t].place.HoldsTheLock();
  }

  /** The device was revoked, its refresh token expired, or the file's was rotated away. */
  predicate RefreshIsDead(w: World) {
    w.server.revoked || w.server.refreshDies <= w.now || w.unstored
  }

  /** The retry's token was the server's own when it was handed out, and by the time it was
      sent the device was revoked, the token had run out, or the tokens had been rotated. */
  ghost predicate RetryIsDead(cfg: Config, w: World, handed: World, v: World, t: nat) {
    && Leads(cfg, w, handed) && Leads(cfg, handed, v)
    && t < |handed.tasks| && handed.tasks[t].place == Sending(handed.server.pair, true)
    && (v.server.revoked || v.server.deviceDies <= v.now || handed.server.pair < v.server.pair)
  }

  lemma RetryLater(cfg: Config, w: World, v: World, handed: World, u: World, t: nat)
    requires Leads(cfg, w, v)
    ensures RetryIsDead(cfg, v, handed, u, t) ==> RetryIsDead(cfg, w, handed, u, t)
  {
    if RetryIsDead(cfg, v, handed, u, t) {
      LeadsOn(cfg, w, v, handed);
    }
  }

  /** What a refresh comes to whose request arrives, if it does, when the world is `w`. */
  predicate TokenIsGood(w: World) {
    w.file == w.server.pair && !w.server.revoked && w.now < w.server.refreshDies
  }

  function AnsweredBy(w: World, delivery: Delivery): Result {
    if !delivery.Heard? then Failed else if TokenIsGood(w) then Answered else Unauthenticated
  }

  /** The file's text: the refresh token of the pair it stands for, on its line. */
  ghost predicate Says(contents: Option<string>, token: string) {
    contents.Some? && F.Read(contents.value) == Some(token)
  }

  // ---------------------------------------------------------------- how requests go

  /** How one request goes: whether the file can be read before it, what becomes of a refresh's
      own request, whether the file can be read again and how far its rewrite gets, and whether
      a send's answer arrives. */
  datatype Fate = Fate(readable: bool, delivery: Delivery, reread: bool, reach: F.Reach, removed: bool, heard: bool)

  /** Nothing fails on the way. */
  predicate Smooth(fates: nat -> Fate, from: nat, to: nat) {
    forall i: nat :: from <= i < to ==>
      fates(i).readable && fates(i).delivery.Heard? && fates(i).reach.Renamed? && fates(i).heard
  }

  // ---------------------------------------------------------------- the client

  /** Task `t`'s use of the client. `tokens` names each pair's refresh token. */
  class Client {
    const cfg: Config
    const t: nat
    const file: F.SessionFile
    const tokens: nat -> string
    const fates: nat -> Fate
    var w: World
    var tried: nat                 // the refreshes and sends tried so far

    ghost predicate Valid()
      reads this, file
    {
      && Inv(w) && t < |w.tasks|
      && (forall pair: nat :: F.Plain(tokens(pair)))
      && Says(file.contents, tokens(w.file))
    }

    constructor (cfg: Config, t: nat, file: F.SessionFile, tokens: nat -> string, fates: nat -> Fate, w: World)
      requires Inv(w) && t < |w.tasks| && (forall pair: nat :: F.Plain(tokens(pair))) && Says(file.contents, tokens(w.file))
      ensures Valid() && this.cfg == cfg && this.t == t && this.file == file && this.tokens == tokens && this.w == w
      ensures this.fates == fates && tried == 0
    {
      this.cfg, this.t, this.file, this.tokens, this.fates, this.w, this.tried := cfg, t, file, tokens, fates, w, 0;
    }

    method Try() returns (fate: Fate)
      modifies this`tried
      ensures fate == fates(old(tried)) && tried == old(tried) + 1
    {
      fate := fates(tried);
      tried := tried + 1;
    }

    /** Between two steps of this task: any steps of the others, or none. */
    method OthersMove()
      requires Valid()
      modifies this`w, file
      ensures Valid() && ByOthersThan(t, cfg, old(w), w)
    {
      assert Run(cfg, w, []) == Some(w);
    }

    method Await()
      requires Valid()
      modifies this`w, file
      ensures Valid() && Leads(cfg, old(w), w) && LeftAlone(t, old(w), w)
    {
      OthersMove();
      OthersLeaveAlone(t, cfg, old(w), w);
    }

    /** Waits for the lock: whoever holds it goes on to the end of its refresh, however that
        ends. */
    method Acquire()
      requires Valid() && !w.tasks[t].place.HoldsTheLock()
      modifies this`w, file
      ensures Valid() && w.lock.None? && Leads(cfg, old(w), w) && LeftAlone(t, old(w), w)
    {
      Await();
      ghost var v := w;
      if w.lock.Some? && w.tasks[w.lock.value].place.Posting? {
        PostOf(w.lock.value);
        LeadsOn(cfg, old(w), v, w);
        v := w;
      }
      if w.lock.Some? {
        StoreOf(w.lock.value);
        LeadsOn(cfg, old(w), v, w);
      }
    }

    /** The request of another task's refresh, however it goes. */
    method PostOf(u: nat)
      requires Valid() && w.lock == Some(u) && w.tasks[u].place.Posting? && u != t
      modifies this`w
      ensures Valid() && Leads(cfg, old(w), w) && |w.tasks| == |old(w).tasks| && w.tasks[t] == old(w).tasks[t]
      ensures w.lock.None? || (w.lock == Some(u) && w.tasks[u].place.Storing?)
    {
      var delivery: Delivery := *;
      Take(Post(u, delivery));
    }

    /** And its rewrite of the file. */
    method StoreOf(u: nat)
      requires Valid() && w.lock == Some(u) && w.tasks[u].place.Storing? && u != t
      modifies this`w, file
      ensures Valid() && Leads(cfg, old(w), w) && |w.tasks| == |old(w).tasks| && w.tasks[t] == old(w).tasks[t]
      ensures w.lock.None?
    {
      var reread: bool, reach: F.Reach, removed: bool := *, *, *;
      var ok := KeepRotated(u, reread, reach, removed);
    }

    /** A step that leaves the file as it is. */
    method Take(s: Step)
      requires Valid() && Can(w, s) && !(s.Store? && s.renamed)
      modifies this`w
      ensures Valid() && w == Do(cfg, old(w), s) && Leads(cfg, old(w), w)
    {
      LeadsStep(cfg, w, s);
      w := Do(cfg, w, s);
    }

    /** The rewrite of the file, and then the slot. */
    method KeepRotated(u: nat, reread: bool, reach: F.Reach, removed: bool) returns (ok: bool)
      requires Valid() && u < |w.tasks| && w.tasks[u].place.Storing?
      modifies this`w, file
      ensures Valid() && Leads(cfg, old(w), w) && StoredTo(cfg, old(w), w, u, ok)
      ensures w == Do(cfg, old(w), Store(u, ok)) && ok == reach.Renamed?
    {
      var pair := w.tasks[u].place.pair;
      ghost var existing := if reread && file.contents.Some? then file.contents.value else "";
      ok := file.Write(tokens(pair), reread, reach, removed);
      F.WriteThenRead(existing, tokens(pair));
      StoreGoes(cfg, w, u, ok);
      LeadsStep(cfg, w, Store(u, ok));
      w := Do(cfg, w, Store(u, ok));
    }

    /** The request of a refresh: the server's answer in hand, or the lock let go. It is
        accepted exactly when the file's token is the server's, not revoked and not expired
        when it arrives, at `posted`. */
    method PostRefresh(delivery: Delivery) returns (r: Result, ghost posted: World)
      requires Valid() && w.tasks[t].place.Posting?
      modifies this`w, file
      ensures Valid() && Leads(cfg, old(w), posted) && Leads(cfg, posted, w) && SameCost(old(w), w, t)
      ensures r == AnsweredBy(posted, delivery)
      ensures w.file == old(w).file == posted.file && w.device.None?
      ensures r.Answered? ==> w.tasks[t].place == Storing(old(w).tasks[t].place.cause, w.file + 1)
      ensures !r.Answered? ==> w.lock.None? && w.tasks[t].place == Ended(r)
      ensures r.Unauthenticated? ==> RefreshIsDead(w)
    {
      Await();
      posted := w;
      PostGoes(cfg, w, t, delivery);
      Take(Post(t, delivery));
      r := if w.tasks[t].place.Ended? then w.tasks[t].place.result else Answered;
    }

    /** A refresh, lock in hand, from the file just read: the token sent is the one the file
        holds, and the slot is filled only once the file holds its successor. It comes to
        what the server answered, or fails if the file could not be rewritten. */
    method RefreshLocked(fate: Fate) returns (r: Result, ghost posted: World)
      requires Valid() && w.tasks[t].place.Posting?
      modifies this`w, file
      ensures Valid() && Leads(cfg, old(w), posted) && Leads(cfg, posted, w) && SameCost(old(w), w, t)
      ensures w.lock.None? && posted.file == old(w).file
      ensures r == if AnsweredBy(posted, fate.delivery).Answered? && !fate.reach.Renamed? then Failed else AnsweredBy(posted, fate.delivery)
      ensures r.Answered? ==>
        && w.file == old(w).file + 1 && w.device == Some(Held(w.file, w.now, cfg.lifetime))
        && w.tasks[t].place == After(old(w).tasks[t].place.cause, w.file)
      ensures !r.Answered? ==>
        w.file == old(w).file && w.device.None? && w.tasks[t].place == Ended(r)
      ensures r.Unauthenticated? ==> RefreshIsDead(w)
    {
      r, posted := PostRefresh(fate.delivery);
      if !r.Answered? {
        return;
      }
      ghost var v := w;
      Await();
      LeadsOn(cfg, posted, v, w);
      v := w;
      var ok := KeepRotated(t, fate.reread, fate.reach, fate.removed);
      LeadsOn(cfg, posted, v, w);
      r := if ok then Answered else Failed;
    }

    /** A refresh of its own, or the one between a request's two sends. */
    method Refresh() returns (r: Result)
      requires Valid() && w.tasks[t].place.WantsRefresh?
      modifies this, file
      ensures Valid() && Leads(cfg, old(w), w) && tried == old(tried) + 1
      ensures w.tasks[t].sends == old(w).tasks[t].sends
      ensures old(w).tasks[t].refreshes <= w.tasks[t].refreshes <= old(w).tasks[t].refreshes + 1
      ensures Smooth(fates, old(tried), tried) ==> !r.Failed?
      ensures r.Answered? ==> w.tasks[t].place == After(old(w).tasks[t].place.cause, w.file)
      ensures !r.Answered? ==> w.tasks[t].place == Ended(r) && w.device.None?
      ensures r.Unauthenticated? ==> RefreshIsDead(w)
    {
      Acquire();
      ghost var v, posted := w, w;
      var fate := Try();
      Take(TakeLock(t, fate.readable));
      LeadsOn(cfg, old(w), v, w);
      if !fate.readable {
        return Failed;
      }
      v := w;
      r, posted := RefreshLocked(fate);
      LeadsOn(cfg, v, posted, w);
      LeadsOn(cfg, old(w), v, w);
    }

    /** A token with a fifth of its life ahead of it: the one held when the lock was had, at
        `from`, and then nothing is asked of anybody, or a refreshed one. */
    method DeviceToken() returns (r: Result, ghost from: World)
      requires Valid() && w.tasks[t].place.WantsToken?
      modifies this, file
      ensures Valid() && Leads(cfg, old(w), from) && Leads(cfg, from, w) && t < |from.tasks| && from.tasks[t] == old(w).tasks[t]
      ensures w.tasks[t].sends == old(w).tasks[t].sends
      ensures !NothingFresh(from) ==>
        && r.Answered? && tried == old(tried) && w.device == from.device && w.file == from.file
        && w.tasks[t].refreshes == old(w).tasks[t].refreshes
      ensures NothingFresh(from) ==>
        && tried == old(tried) + 1
        && w.tasks[t].refreshes == old(w).tasks[t].refreshes + if fates(old(tried)).readable then 1 else 0
      ensures Smooth(fates, old(tried), tried) ==> !r.Failed?
      ensures r.Answered? ==>
        && w.tasks[t].place == Sending(w.file, old(w).tasks[t].place.retry)
        && w.device.Some? && w.device.value.IsFresh(w.now) && w.device.value.pair == w.file == w.server.pair
      ensures !r.Answered? ==> w.tasks[t].place == Ended(r)
      ensures r.Unauthenticated? ==> RefreshIsDead(w)
    {
      Acquire();
      from := w;
      if w.device.Some? && w.device.value.IsFresh(w.now) {
        Take(TakeToken(t, true));
        return Answered, from;
      }
      var fate := Try();
      Take(TakeToken(t, fate.readable));
      if !fate.readable {
        return Failed, from;
      }
      ghost var v, posted := w, w;
      r, posted := RefreshLocked(fate);
      LeadsOn(cfg, v, posted, w);
      LeadsOn(cfg, from, v, w);
    }

    /** One send with the token in hand. It is answered exactly when the token is the
        server's, not revoked and not run out when it arrives. */
    method SendOnce() returns (refused: bool)
      requires Valid() && w.tasks[t].place.Sending?
      modifies this, file
      ensures Valid() && Leads(cfg, old(w), w) && tried == old(tried) + 1
      ensures w.tasks[t].sends == old(w).tasks[t].sends + 1 && w.tasks[t].refreshes == old(w).tasks[t].refreshes
      ensures var Sending(pair, retry) := old(w).tasks[t].place;
        var accepts := pair == w.server.pair && !w.server.revoked && w.now < w.server.deviceDies;
        && refused == (fates(old(tried)).heard && !accepts)
        && (refused ==> w.server.revoked || w.server.deviceDies <= w.now || pair < w.server.pair)
        && w.tasks[t].place ==
          if !fates(old(tried)).heard then Ended(Failed)
          else if accepts then Ended(Answered)
          else if retry then Ended(Unauthenticated)
          else WantsRefresh(BetweenSends)
    {
      Await();
      ghost var v := w;
      var fate := Try();
      refused := fate.heard && !AcceptsDevice(w, w.tasks[t].place.pair);
      assert InHand(w, w.tasks[t].place);
      Take(Send(t, fate.heard));
      LeadsOn(cfg, old(w), v, w);
    }

    /** One request as the device. `Unauthenticated` is a refused refresh, or a refused retry
        with the token that was the server's own when it was `handed` out; and it fails only
        if something on the way did. */
    method AsDevice() returns (r: Result, ghost handed: World)
      requires Valid() && w.tasks[t].place.Idle?
      modifies this, file
      ensures Valid() && Leads(cfg, old(w), w) && w.tasks[t].place == Ended(r)
      ensures w.tasks[t].sends <= 2 && w.tasks[t].refreshes <= 3
      ensures old(tried) <= tried && (Smooth(fates, old(tried), tried) ==> !r.Failed?)
      ensures r.Answered? ==> w.tasks[t].sends > 0 && !w.server.revoked && w.now < w.server.deviceDies
      ensures r.Unauthenticated? ==> RefreshIsDead(w) || RetryIsDead(cfg, old(w), handed, w, t)
    {
      Take(Begin(t));
      ghost var v := w;
      handed := w;
      ghost var from;
      r, from := DeviceToken();
      LeadsOn(cfg, v, from, w);
      LeadsOn(cfg, old(w), v, w);
      if !r.Answered? {
        return;
      }
      v := w;
      var refused := SendOnce();
      LeadsOn(cfg, old(w), v, w);
      if refused {
        v := w;
        r, handed := RefreshAndRetry();
        RetryLater(cfg, old(w), v, handed, w, t);
        LeadsOn(cfg, old(w), v, w);
      } else {
        r := w.tasks[t].place.result;
      }
      assert CostOk(w.tasks[t]);
    }

    /** What a refused send is answered by: one refresh, and one more send. */
    method RefreshAndRetry() returns (r: Result, ghost handed: World)
      requires Valid() && w.tasks[t].place == WantsRefresh(BetweenSends)
      modifies this, file
      ensures Valid() && Leads(cfg, old(w), w) && w.tasks[t].place == Ended(r)
      ensures w.tasks[t].sends <= old(w).tasks[t].sends + 1 && w.tasks[t].refreshes <= old(w).tasks[t].refreshes + 2
      ensures old(tried) < tried && (Smooth(fates, old(tried), tried) ==> !r.Failed?)
      ensures r.Answered? ==> w.tasks[t].sends > 0 && !w.server.revoked && w.now < w.server.deviceDies
      ensures r.Unauthenticated? ==> RefreshIsDead(w) || RetryIsDead(cfg, old(w), handed, w, t)
    {
      handed := w;
      r := Refresh();
      if !r.Answered? {
        return;
      }
      ghost var v := w;
      ghost var from;
      r, from := DeviceToken();
      LeadsOn(cfg, v, from, w);
      LeadsOn(cfg, old(w), v, w);
      if !r.Answered? {
        return;
      }
      handed := w;
      var refused := SendOnce();
      LeadsOn(cfg, old(w), handed, w);
      r := w.tasks[t].place.result;
    }
  }
}

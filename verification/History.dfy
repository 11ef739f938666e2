/** Runs looked back on: the world after each step, and what only ever grows. */
module Histories {
  import opened Strings
  import opened Relay
  import opened Carry
  import opened Gateways
  import opened Protocol
  import opened Safety
  import opened Guarantees

  // ---------------------------------------------------------------- the world after each step

  /** The world `k` steps into a run. */
  function After(cfg: Config, w: World, steps: seq<Step>, k: nat): World
    requires k <= |steps|
  {
    match Run(cfg, w, steps[..k])
    case Some(v) => v
    case None => w
  }

  lemma {:induction false} PrefixRuns(cfg: Config, w: World, steps: seq<Step>, k: nat)
    requires k <= |steps| && Run(cfg, w, steps).Some?
    ensures Run(cfg, w, steps[..k]) == Some(After(cfg, w, steps, k))
    decreases |steps|
  {
    if k == |steps| {
      assert steps[..k] == steps;
    } else {
      var init := steps[..|steps| - 1];
      PrefixRuns(cfg, w, init, k);
      assert init[..k] == steps[..k];
    }
  }

  /** Step by step. */
  lemma OneStep(cfg: Config, w: World, steps: seq<Step>, k: nat)
    requires k < |steps| && Run(cfg, w, steps).Some?
    ensures Can(cfg, After(cfg, w, steps, k), steps[k])
    ensures After(cfg, w, steps, k + 1) == Do(cfg, After(cfg, w, steps, k), steps[k])
  {
    PrefixRuns(cfg, w, steps, k);
    PrefixRuns(cfg, w, steps, k + 1);
    assert steps[..k + 1][..k] == steps[..k];
  }

  lemma Ends(cfg: Config, w: World, steps: seq<Step>, v: World)
    requires Run(cfg, w, steps) == Some(v)
    ensures After(cfg, w, steps, |steps|) == v && After(cfg, w, steps, 0) == w
  {
    assert steps[..|steps|] == steps;
  }

  lemma PrefixOf(cfg: Config, w: World, steps: seq<Step>, n: nat, k: nat)
    requires k <= n <= |steps|
    ensures After(cfg, w, steps[..n], k) == After(cfg, w, steps, k)
  {
    assert steps[..n][..k] == steps[..k];
  }

  lemma {:induction false} HoldsAfter(cfg: Config, w: World, steps: seq<Step>, k: nat)
    requires Inv(cfg, w) && k <= |steps| && Run(cfg, w, steps).Some?
    ensures Inv(cfg, After(cfg, w, steps, k))
  {
    PrefixRuns(cfg, w, steps, k);
    RunKeeps(cfg, w, steps[..k]);
  }

  // ---------------------------------------------------------------- what only ever grows

  /** A post once written and then gone never stands again. */
  ghost predicate StaysGone(w: World, v: World) {
    && w.relay.everPosts <= v.relay.everPosts
    && forall p :: p in w.relay.everPosts && p.id !in w.relay.posts ==> p.id !in v.relay.posts
  }

  /** From `w` on to `v`: time does not turn back, answers, replies and calls are not taken
      back, and what is gone stays gone. */
  ghost predicate Onwards(w: World, v: World) {
    && w.now <= v.now
    && w.relay.answers <= v.relay.answers && w.calls <= v.calls
    && w.relay.everGestures <= v.relay.everGestures
    && StaysGone(w, v)
    && GatewayGrows(w.gateway, v.gateway)
  }

  lemma LoopSends(cfg: Config, w: World, s: Step)
    requires GatewayOk(w.gateway) && DeciderCan(cfg, w, s)
    ensures GatewayGrows(w.gateway, DeciderDoes(cfg, w, s).gateway)
  {
    OnlyCallsMoveTheGateway(cfg, w, s);
    GatewayStays(w.gateway);
    if s.NextItem? && Approves(w) {
      ArrivingKeeps(w.gateway, w.decider.todo[0].post.about.value.suggestionId);
    } else if s.GatewayAnswers? {
      ClosingKeeps(w.gateway, w.decider.run);
    }
  }

  lemma SentGrows(cfg: Config, w: World, s: Step)
    requires GatewayOk(w.gateway) && Can(cfg, w, s)
    ensures GatewayGrows(w.gateway, Do(cfg, w, s).gateway)
  {
    if DeciderCan(cfg, w, s) {
      LoopSends(cfg, w, s);
    } else if EnvironmentCan(cfg, w, s) {
      GatewayMoves(cfg, w, s);
    } else {
      GatewayStays(w.gateway);
    }
  }

  lemma ConsumerGoesOn(cfg: Config, w: World, s: Step)
    requires PostsOk(w.relay) && ConsumerCan(w, s)
    ensures var v := ConsumerDoes(cfg, w, s);
      v.relay.answers == w.relay.answers && v.relay.everGestures == w.relay.everGestures && StaysGone(w, v)
  {
  }

  lemma OthersGoOn(cfg: Config, w: World, s: Step)
    requires PostsOk(w.relay) && Can(cfg, w, s) && !DeciderCan(cfg, w, s)
    ensures var v := Do(cfg, w, s);
      w.relay.answers <= v.relay.answers && w.relay.everGestures <= v.relay.everGestures && StaysGone(w, v)
  {
    if ConsumerCan(w, s) {
      ConsumerGoesOn(cfg, w, s);
    }
  }

  lemma LoopGoesOn(cfg: Config, w: World, s: Step)
    requires Inv(cfg, w) && DeciderCan(cfg, w, s)
    ensures var v := DeciderDoes(cfg, w, s);
      w.relay.answers <= v.relay.answers && w.relay.everGestures <= v.relay.everGestures && StaysGone(w, v)
  {
    LoopChanges(cfg, w, s);
  }

  lemma RelayGoesOn(cfg: Config, w: World, s: Step)
    requires Inv(cfg, w) && Can(cfg, w, s)
    ensures var v := Do(cfg, w, s);
      w.relay.answers <= v.relay.answers && w.relay.everGestures <= v.relay.everGestures && StaysGone(w, v)
  {
    if DeciderCan(cfg, w, s) {
      LoopGoesOn(cfg, w, s);
    } else {
      OthersGoOn(cfg, w, s);
    }
  }

  lemma TimeGoesOn(cfg: Config, w: World, s: Step)
    requires Can(cfg, w, s)
    ensures w.now <= Do(cfg, w, s).now && w.calls <= Do(cfg, w, s).calls
  {
    if DeciderCan(cfg, w, s) {
      OnlyCallsMoveTheGateway(cfg, w, s);
    } else if ConsumerCan(w, s) && s.ReadSuggestion? {
      assert w.calls <= ConsumerDoes(cfg, w, s).calls;
    }
  }

  lemma StepGoesOn(cfg: Config, w: World, s: Step)
    requires Inv(cfg, w) && Can(cfg, w, s)
    ensures Onwards(w, Do(cfg, w, s))
  {
    TimeGoesOn(cfg, w, s);
    SentGrows(cfg, w, s);
    RelayGoesOn(cfg, w, s);
  }

  lemma OnwardsOn(w: World, v: World, u: World)
    requires Onwards(w, v) && Onwards(v, u)
    ensures Onwards(w, u)
  {
  }

  lemma {:induction false} RunGoesOn(cfg: Config, w: World, v: World, steps: seq<Step>)
    requires Inv(cfg, w) && Run(cfg, w, steps) == Some(v)
    ensures Inv(cfg, v) && Onwards(w, v)
    decreases |steps|
  {
    if steps == [] {
    } else {
      var init, last := steps[..|steps| - 1], steps[|steps| - 1];
      var u := Run(cfg, w, init).value;
      RunGoesOn(cfg, w, u, init);
      StepGoesOn(cfg, u, last);
      StepKeeps(cfg, u, last);
      OnwardsOn(w, u, v);
    }
  }

  lemma GoesOnOnce(cfg: Config, w: World, steps: seq<Step>, k: nat)
    requires k < |steps| && Run(cfg, w, steps).Some? && Inv(cfg, After(cfg, w, steps, k))
    ensures Inv(cfg, After(cfg, w, steps, k + 1))
    ensures Onwards(After(cfg, w, steps, k), After(cfg, w, steps, k + 1))
  {
    OneStep(cfg, w, steps, k);
    StepGoesOn(cfg, After(cfg, w, steps, k), steps[k]);
    StepKeeps(cfg, After(cfg, w, steps, k), steps[k]);
  }

  lemma OneOn(cfg: Config, w: World, steps: seq<Step>, n: nat)
    requires Inv(cfg, w) && n < |steps| && Run(cfg, w, steps).Some?
    ensures Onwards(After(cfg, w, steps, n), After(cfg, w, steps, n + 1))
  {
    HoldsAfter(cfg, w, steps, n);
    GoesOnOnce(cfg, w, steps, n);
  }

  /** Between two moments of one run. */
  lemma {:induction false} GoesOn(cfg: Config, w: World, steps: seq<Step>, i: nat, k: nat)
    requires Inv(cfg, w) && i <= k <= |steps| && Run(cfg, w, steps).Some?
    ensures Onwards(After(cfg, w, steps, i), After(cfg, w, steps, k))
    decreases k - i
  {
    if i < k {
      GoesOn(cfg, w, steps, i, k - 1);
      OneOn(cfg, w, steps, k - 1);
      OnwardsOn(After(cfg, w, steps, i), After(cfg, w, steps, k - 1), After(cfg, w, steps, k));
    }
  }

  // ---------------------------------------------------------------- the loop's own place

  lemma OthersLeaveTheLoop(cfg: Config, w: World, s: Step)
    requires Can(cfg, w, s) && !DeciderCan(cfg, w, s)
    ensures Do(cfg, w, s).decider == if s.Crash? then Waiting else w.decider
  {
  }

  /** Dealing with an item takes it off the list, at once or once the Gateway is asked. */
  lemma ItemComesOff(cfg: Config, w: World, took: bool)
    requires w.decider.Working? && w.decider.todo != []
    ensures var d, Working(seen, spent, todo) := ItemDoes(cfg, w, took).decider, w.decider;
      if Approves(w) then d == Asking(seen, spent, todo[0], |w.gateway.runs|, todo[1..]) else d == Resume(seen, spent, todo[1..])
    ensures w.decider.todo == [w.decider.todo[0]] + w.decider.todo[1..]
  {
  }

  /** And its answer leaves one thing more to do, or none. */
  lemma AnswerComesIn(cfg: Config, w: World, answer: GatewayAnswer)
    requires w.decider.Asking? && w.decider.run < |w.gateway.runs|
    ensures var d, Asking(seen, spent, item, _, todo) := AnswerDoes(cfg, w, answer).decider, w.decider;
      || d == Resume(seen, spent, todo)
      || d == Deleting(seen, spent, item, todo)
      || (d.Saying? && d == Saying(seen, spent, item, d.reply, todo))
    ensures AnswerDoes(cfg, w, answer).relay == w.relay
  {
  }

  lemma SeenIsOk(cfg: Config, w: World)
    requires Inv(cfg, w) && w.decider.Seen?
    ensures AnswersRooted(w.relay) && IdsAreHashes(w.relay.everGestures) && DistinctPosts(w.decider.posts)
    ensures Believable(cfg, w.decider.seen, w.relay.everGestures)
  {
  }

  lemma PendingIsTodo(cfg: Config, w: World)
    requires w.decider.Seen?
    ensures var Seen(at, posts, seen) := w.decider;
      Pending(DeciderDoes(cfg, w, ReadAnswers).decider)
      == Todo(cfg, at, posts, seen, SpentOn(w.relay.answers, posts), ToldOn(w.relay.answers, posts))
  {
  }
}

/** Runs of the protocol seen from one task: what the steps of the others leave alone. */
module Runs {
  import opened Strings
  import opened Steps
  import opened Protocol
  import opened Safety
  import opened Guarantees
  import opened Histories

  datatype Task = Suggestions | Journal | Sweep | Decisions | Outside

  function Actor(s: Step): Task {
    match s
    case Look(_, _, _) => Suggestions
    case ReadSuggestion(_, _) => Suggestions
    case WritePost(_, _, _, _, _) => Suggestions
    case Settle(_) => Suggestions
    case LookForLine(_, _) => Journal
    case WriteLine(_) => Journal
    case SweepReads(_) => Sweep
    case SweepNext(_) => Sweep
    case Refresh(_) => Decisions
    case ReadPosts(_) => Decisions
    case ReadGestures(_) => Decisions
    case ReadAnswers => Decisions
    case GiveUpTick => Decisions
    case NextItem(_) => Decisions
    case GatewayAnswers(_) => Decisions
    case DeleteDecided(_) => Decisions
    case SayInThread(_) => Decisions
    case _ => Outside
  }

  /** `v` is where some run from `w` ends, and keeps what runs keep. */
  ghost predicate Leads(cfg: Config, w: World, v: World) {
    Inv(cfg, v) && exists steps :: Run(cfg, w, steps) == Some(v)
  }

  /** So it is, and by steps of other tasks and of the world alone, crashes aside. */
  ghost predicate ByOthersThan(task: Task, cfg: Config, w: World, v: World) {
    exists steps ::
      Run(cfg, w, steps) == Some(v) && forall s :: s in steps ==> Actor(s) != task && !s.Crash?
  }

  function RunOf(cfg: Config): (World, seq<Step>) -> Option<World> {
    (w: World, steps: seq<Step>) => Run(cfg, w, steps)
  }

  function NextOf(cfg: Config): (World, Step) -> Option<World> {
    (u: World, s: Step) => if Can(cfg, u, s) then Some(Do(cfg, u, s)) else None
  }

  lemma RunsAsSteps(cfg: Config)
    ensures Steps.Runs(RunOf(cfg), NextOf(cfg))
  {
    forall w, steps, s
      ensures RunOf(cfg)(w, steps + [s]) == Then(RunOf(cfg)(w, steps), NextOf(cfg), s)
    {
      assert (steps + [s])[..|steps + [s]| - 1] == steps;
    }
  }

  lemma LeadsOn(cfg: Config, w: World, v: World, u: World)
    requires Leads(cfg, w, v) && Leads(cfg, v, u)
    ensures Leads(cfg, w, u)
  {
    var steps :| Run(cfg, w, steps) == Some(v);
    var more :| Run(cfg, v, more) == Some(u);
    RunsAsSteps(cfg);
    RunsJoin(RunOf(cfg), NextOf(cfg), w, v, steps, more);
  }

  lemma LeadsStep(cfg: Config, w: World, s: Step)
    requires Inv(cfg, w) && Can(cfg, w, s)
    ensures Leads(cfg, w, Do(cfg, w, s))
  {
    StepKeeps(cfg, w, s);
    RunPush(cfg, w, [], w, s);
    assert [] + [s] == [s];
  }

  lemma LeadsNowhere(cfg: Config, w: World)
    requires Inv(cfg, w)
    ensures Leads(cfg, w, w)
  {
    assert Run(cfg, w, []) == Some(w);
  }

  /** What steps of others leave alone. */
  ghost predicate LeftAlone(task: Task, w: World, v: World) {
    && (task.Decisions? ==> v.decider == w.decider && v.relay.answers == w.relay.answers)
    && (task.Suggestions? ==>
        v.consumer == w.consumer && v.log == w.log && v.acked == w.acked && v.relay.everPosts == w.relay.everPosts)
    && (task.Journal? ==> v.journalist == w.journalist && v.relay.journal == w.relay.journal)
    && (task.Sweep? ==> v.sweeper == w.sweeper)
    && w.stream <= v.stream && w.relay.everPosts <= v.relay.everPosts
    && forall p :: p in w.relay.everPosts && p.id !in w.relay.posts ==> p.id !in v.relay.posts
  }

  lemma OneByOther(task: Task, cfg: Config, w: World, s: Step)
    requires Inv(cfg, w) && Can(cfg, w, s) && Actor(s) != task && !s.Crash?
    ensures LeftAlone(task, w, Do(cfg, w, s))
  {
    if DeciderCan(cfg, w, s) {
      LoopLeaves(cfg, w, s);
    } else {
      OtherThanTheLoop(task, cfg, w, s);
    }
  }

  lemma OtherThanTheLoop(task: Task, cfg: Config, w: World, s: Step)
    requires PostsOk(w.relay) && Can(cfg, w, s) && !DeciderCan(cfg, w, s) && Actor(s) != task && !s.Crash?
    ensures LeftAlone(task, w, Do(cfg, w, s))
  {
  }

  lemma LoopLeaves(cfg: Config, w: World, s: Step)
    requires Inv(cfg, w) && DeciderCan(cfg, w, s)
    ensures var v := DeciderDoes(cfg, w, s);
      && v == w.(relay := v.relay, gateway := v.gateway, calls := v.calls, session := v.session, decider := v.decider)
      && v.relay == w.relay.(posts := v.relay.posts, answers := v.relay.answers)
      && forall id :: id in v.relay.posts ==> id in w.relay.posts
  {
    LoopChanges(cfg, w, s);
  }

  lemma {:induction false} OthersLeave(task: Task, cfg: Config, w: World, v: World, steps: seq<Step>)
    requires Inv(cfg, w) && Run(cfg, w, steps) == Some(v)
    requires forall s :: s in steps ==> Actor(s) != task && !s.Crash?
    ensures Inv(cfg, v) && LeftAlone(task, w, v)
    decreases |steps|
  {
    if steps == [] {
    } else {
      var init, last := steps[..|steps| - 1], steps[|steps| - 1];
      assert steps == init + [last];
      var u := Run(cfg, w, init).value;
      OthersLeave(task, cfg, w, u, init);
      OneByOther(task, cfg, u, last);
      StepKeeps(cfg, u, last);
    }
  }

  lemma OthersLeaveAlone(task: Task, cfg: Config, w: World, v: World)
    requires Inv(cfg, w) && ByOthersThan(task, cfg, w, v)
    ensures Leads(cfg, w, v) && LeftAlone(task, w, v)
  {
    var steps :| Run(cfg, w, steps) == Some(v) && forall s :: s in steps ==> Actor(s) != task && !s.Crash?;
    OthersLeave(task, cfg, w, v, steps);
  }

  // ---------------------------------------------------------------- gone for good

  ghost predicate WereWritten(posts: seq<Post>, w: World) {
    forall p :: p in posts ==> p in w.relay.everPosts
  }

  /** No run, crashes and all, brings back a post that was written and is gone, or takes an
      answer back. */
  lemma GoneStaysGone(cfg: Config, w: World, v: World)
    requires Inv(cfg, w) && Leads(cfg, w, v)
    ensures Onwards(w, v) && StaysGone(w, v)
  {
    var steps :| Run(cfg, w, steps) == Some(v);
    RunGoesOn(cfg, w, v, steps);
  }
}

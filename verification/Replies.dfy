/** How often a reply is sent: exactly, over every run, however many runs of the approval
    overlap. */
module Replies {
  import opened Strings
  import opened R = Reference
  import opened Schedule
  import opened Carry
  import opened Gateways
  import opened Protocol
  import opened Safety
  import opened Guarantees

  // ---------------------------------------------------------------- the count

  /** Across timed-out approvals that landed, failed deletions, crashes, approvals from the
      screen and runs of the approval that overlap: a reply is on the bus once for each time
      the bus forgot it, and once more if the bus recognises it. So it is there once at most
      exactly when the bus never forgot it, or forgot it once and nobody has had it sent
      again; and it is there at all exactly when some run had it put there. */
  lemma RepliesAreCounted(cfg: Config, w: World, id: string)
    requires Reachable(cfg, w)
    ensures Count(w.gateway.sent, id) == Count(w.gateway.forgets, id) + (if id in w.gateway.remembered then 1 else 0)
    ensures Count(w.gateway.sent, id) <= 1 <==>
      id !in w.gateway.forgets || (Count(w.gateway.forgets, id) == 1 && id !in w.gateway.remembered)
    ensures id in w.gateway.sent <==> ReachedTheBus(w.gateway, id)
  {
    ReachableKeeps(cfg, w);
    assert ReplyOk(w.gateway, id);
    CountedIsIn(w.gateway.forgets, id);
    CountedIsIn(w.gateway.sent, id);
    if ReachedTheBus(w.gateway, id) {
      var k :| 0 <= k < |w.gateway.runs| && w.gateway.runs[k].suggestion == id && WasOut(w.gateway.runs[k].phase);
      assert RunOk(w.gateway, w.gateway.runs[k]);
    }
  }

  /** Only a run that is to put the reply on the bus sends it, and does so exactly when the
      bus does not recognise it: again, exactly when the bus forgot it before; for the second
      time, exactly when it forgot it once. */
  lemma SentAgainExactlyWhen(cfg: Config, w: World, k: nat, id: string)
    requires Reachable(cfg, w) && CanGoOn(w.gateway, k)
    ensures var g, h := w.gateway, GoOn(w.gateway, k);
      var sends := g.runs[k].suggestion == id && g.runs[k].phase.Noted? && id !in g.remembered;
      && Count(h.sent, id) == Count(g.sent, id) + (if sends then 1 else 0)
      && (Count(h.sent, id) > Count(g.sent, id) >= 1 <==> sends && id in g.forgets)
      && (Count(g.sent, id) == 1 && Count(h.sent, id) == 2 <==> sends && Count(g.forgets, id) == 1)
  {
    ReachableKeeps(cfg, w);
    assert ReplyOk(w.gateway, id) && ReplyOk(w.gateway, w.gateway.runs[k].suggestion);
    StepCounts(w.gateway, k, id);
    CountedIsIn(w.gateway.forgets, id);
  }

  // ---------------------------------------------------------------- what an answer means

  /** What the clerk may take from the Gateway's answer, whatever other runs of the approval
      do: "approved" means recorded as published with the reply on the bus, "sent but not
      recorded" means on the bus, and a refusal for good that the run sent and recorded
      nothing. */
  lemma AnswersMean(cfg: Config, w: World, answer: GatewayAnswer)
    requires Reachable(cfg, w) && DeciderCan(cfg, w, GatewayAnswers(answer))
    ensures w.decider.item.post.about.Some? && w.decider.run < |w.gateway.runs|
    ensures var id, g := w.decider.item.post.about.value.suggestionId, w.gateway;
      && g.runs[w.decider.run].suggestion == id
      && (answer.Approved? ==> RowOf(g, id) == Some(Published) && id in g.sent)
      && (answer == GatewayAnswer.Refused(SentUnrecorded) ==> id in g.sent)
      && (answer == GatewayAnswer.Refused(Final) ==> g.runs[w.decider.run].phase in {Arrived, Passed})
  {
    ReachableKeeps(cfg, w);
    var run := w.gateway.runs[w.decider.run];
    assert RunOk(w.gateway, run) && ReplyOk(w.gateway, run.suggestion);
    CountedIsIn(w.gateway.sent, run.suggestion);
  }

  // ---------------------------------------------------------------- sent no more

  /** The approval is marked published, and no run is left that found it was not. */
  predicate Closed(g: GatewayState, id: string) {
    && RowOf(g, id) == Some(Published)
    && forall k :: 0 <= k < |g.runs| && g.runs[k].suggestion == id && !g.runs[k].over ==>
      !g.runs[k].phase.Passed? && !g.runs[k].phase.Noted?
  }

  lemma RunStaysClosed(g: GatewayState, k: nat, id: string)
    requires GatewayOk(g) && CanGoOn(g, k) && Closed(g, id)
    ensures Closed(GoOn(g, k), id) && Count(GoOn(g, k).sent, id) == Count(g.sent, id)
  {
    assert ReplyOk(g, id) && ReplyOk(g, g.runs[k].suggestion);
    StepCounts(g, k, id);
  }

  lemma OthersStayClosed(g: GatewayState, k: nat, id: string, other: string)
    requires Closed(g, id)
    ensures Closed(Arrive(g, other), id) && Closed(Forget(g, other), id)
    ensures k < |g.runs| ==> Closed(Close(g, k), id)
  {
  }

  lemma StepStaysClosed(cfg: Config, w: World, s: Step, id: string)
    requires GatewayOk(w.gateway) && Can(cfg, w, s) && Closed(w.gateway, id)
    ensures Closed(Do(cfg, w, s).gateway, id)
    ensures Count(Do(cfg, w, s).gateway.sent, id) == Count(w.gateway.sent, id)
  {
    if DeciderCan(cfg, w, s) {
      OnlyCallsMoveTheGateway(cfg, w, s);
      OthersStayClosed(w.gateway, if s.GatewayAnswers? then w.decider.run else 0, id,
        if s.NextItem? && Approves(w) then w.decider.todo[0].post.about.value.suggestionId else id);
    } else if EnvironmentCan(cfg, w, s) {
      WorldStaysClosed(cfg, w, s, id);
    }
  }

  lemma WorldStaysClosed(cfg: Config, w: World, s: Step, id: string)
    requires GatewayOk(w.gateway) && EnvironmentCan(cfg, w, s) && Closed(w.gateway, id)
    ensures Closed(EnvironmentDoes(cfg, w, s).gateway, id)
    ensures Count(EnvironmentDoes(cfg, w, s).gateway.sent, id) == Count(w.gateway.sent, id)
  {
    match s
    case GatewayGoesOn(run) => RunStaysClosed(w.gateway, run, id);
    case ScreenApproves(other) => OthersStayClosed(w.gateway, 0, id, other);
    case BusForgets(other) => OthersStayClosed(w.gateway, 0, id, other);
    case _ =>
  }

  /** From then on the reply is never sent again, whatever the bus forgets and however often
      it is approved. */
  lemma {:induction false} SentNoMore(cfg: Config, w: World, v: World, steps: seq<Step>, id: string)
    requires Inv(cfg, w) && Run(cfg, w, steps) == Some(v) && Closed(w.gateway, id)
    ensures Closed(v.gateway, id) && Count(v.gateway.sent, id) == Count(w.gateway.sent, id)
    decreases |steps|
  {
    if steps == [] {
    } else {
      var init, last := steps[..|steps| - 1], steps[|steps| - 1];
      var u := Run(cfg, w, init).value;
      SentNoMore(cfg, w, u, init, id);
      RunKeeps(cfg, w, init);
      StepStaysClosed(cfg, u, last, id);
    }
  }

  // ---------------------------------------------------------------- steps of a run

  lemma Begun(cfg: Config, now: I64) returns (w: World)
    ensures w == Start(now) && Reachable(cfg, w)
  {
    w := Start(now);
    assert Run(cfg, w, []) == Some(w);
  }

  lemma Next(cfg: Config, w: World, s: Step) returns (v: World)
    requires Reachable(cfg, w) && Can(cfg, w, s)
    ensures v == Do(cfg, w, s) && Reachable(cfg, v)
  {
    v := Do(cfg, w, s);
    var now: I64, steps :| Run(cfg, Start(now), steps) == Some(w);
    RunPush(cfg, Start(now), steps, w, s);
  }

  /** A run of the Gateway's goes one phase on. */
  lemma On(cfg: Config, w: World, k: nat) returns (v: World)
    requires Reachable(cfg, w) && CanGoOn(w.gateway, k)
    ensures v == w.(gateway := GoOn(w.gateway, k)) && Reachable(cfg, v)
  {
    v := Next(cfg, w, GatewayGoesOn(k));
  }

  // ---------------------------------------------------------------- a reply sent twice

  /** Two runs that both found the approval not published. */
  lemma TwoPass(cfg: Config, now: I64, id: string) returns (w: World)
    ensures Reachable(cfg, w)
    ensures w.gateway == GatewayState(map[], [ApprovalRun(id, Passed, false), ApprovalRun(id, Passed, false)], [], {}, [])
  {
    w := Begun(cfg, now);
    w := Next(cfg, w, ScreenApproves(id));
    w := Next(cfg, w, ScreenApproves(id));
    w := On(cfg, w, 0);
    w := On(cfg, w, 1);
  }

  /** Then one sends the reply and marks it. */
  lemma OneMarks(cfg: Config, now: I64, id: string) returns (w: World)
    ensures Reachable(cfg, w) && w.gateway
      == GatewayState(map[id := Published], [ApprovalRun(id, Marked, false), ApprovalRun(id, Noted, false)], [id], {id}, [])
  {
    w := TwoPass(cfg, now, id);
    w := On(cfg, w, 0);
    w := On(cfg, w, 1);
    w := On(cfg, w, 0);
    w := On(cfg, w, 0);
  }

  /** Two approvals of one suggestion overlap: both find the row not published, one sends the
      reply and marks it, the bus forgets it, and the other sends it again. */
  lemma ForgettingSendsTwice(cfg: Config, now: I64, id: string) returns (w: World)
    ensures Reachable(cfg, w) && w.gateway.sent == [id, id]
  {
    w := OneMarks(cfg, now, id);
    w := Next(cfg, w, BusForgets(id));
    w := On(cfg, w, 1);
  }

  // ---------------------------------------------------------------- skipped as already approved

  /** A suggestion skipped as already approved has an approval recorded; its reply was sent
      exactly when some run of the approval got as far as the bus. */
  lemma SkippedMeansRecorded(cfg: Config, w: World, k: nat)
    requires Reachable(cfg, w) && k < |w.log| && w.log[k].1.SkippedAlreadyApproved?
    ensures w.log[k].0 < |w.stream| && w.stream[w.log[k].0].Suggestion?
    ensures var id, g := w.stream[w.log[k].0].id, w.gateway;
      id in g.rows && (id in g.sent <==> ReachedTheBus(g, id))
  {
    ReachableKeeps(cfg, w);
    assert Justified(cfg, w, w.log[k].0, w.log[k].1);
    RepliesAreCounted(cfg, w, w.stream[w.log[k].0].id);
  }

  /** And it may be that none did: the approval recorded and nothing sent, the suggestion
      read as approved, skipped and acked. */
  lemma SkippedUnsent(cfg: Config, now: I64, id: string, text: string) returns (w: World)
    requires IsSuggestionId(id)
    ensures Reachable(cfg, w) && w.stream == [Suggestion(id, None, text)] && 0 in w.acked
    ensures w.log == [(0, SkippedAlreadyApproved)] && w.gateway.sent == [] && w.relay.everPosts == {}
  {
    w := Begun(cfg, now);
    w := Next(cfg, w, ScreenApproves(id));
    w := On(cfg, w, 0);
    w := On(cfg, w, 0);
    w := SkippedAsApproved(cfg, w, id, text);
  }

  lemma SkippedAsApproved(cfg: Config, w: World, id: string, text: string) returns (v: World)
    requires Reachable(cfg, w) && IsSuggestionId(id) && id in w.gateway.rows && w.session.Alive?
    requires w.stream == [] && w.consumer.Idle? && w.relay.posts == map[] && w.acked == {}
    ensures Reachable(cfg, v) && v.stream == [Suggestion(id, None, text)] && v.acked == {0}
    ensures v.log == w.log + [(0, SkippedAlreadyApproved)] && v.gateway == w.gateway && v.relay == w.relay
  {
    v := Next(cfg, w, SuggestionPublished(Suggestion(id, None, text)));
    v := Next(cfg, v, Look(0, true, false));
    v := Next(cfg, v, ReadSuggestion(true, false));
    v := Next(cfg, v, Settle(true));
  }
}

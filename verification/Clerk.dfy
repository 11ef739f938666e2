/** The clerk's tasks as they run: loops over what was read, one request at a time, while
    the other tasks and the world move between any two requests. Each method is a run of
    the protocol, so what every run keeps holds of it. */
module ClerkTasks {
  import opened Strings
  import opened Relay
  import opened Decisions
  import opened Schedule
  import opened Thread
  import opened Carry
  import opened Gateways
  import opened Protocol
  import opened Safety
  import opened Guarantees
  import opened Histories
  import opened Approvals
  import opened Silence
  import opened Quiescence
  import opened Reading
  import opened Runs
  import opened Answering
  import opened Accounting

  class Clerk {
    const cfg: Config
    const tails: Tails
    const channel: string
    const requests: nat -> Request    // how each request of the relay that the loops make goes
    const offers: nat -> Offer        // and what the Gateway would say to each call of it
    var w: World
    var asked: nat                    // the requests and the calls made so far
    var called: nat

    constructor (cfg: Config, tails: Tails, channel: string, requests: nat -> Request, offers: nat -> Offer, now: I64)
      ensures this.cfg == cfg && this.tails == tails && this.channel == channel && w == Start(now) && Inv(cfg, w)
      ensures this.requests == requests && this.offers == offers && asked == 0 && called == 0
    {
      this.cfg, this.tails, this.channel, this.requests, this.offers := cfg, tails, channel, requests, offers;
      this.w, this.asked, this.called := Start(now), 0, 0;
    }

    /** The next request of the relay. */
    method Ask() returns (request: Request)
      modifies this`asked
      ensures request == requests(old(asked)) && asked == old(asked) + 1
      ensures Failures(requests, old(asked), asked) == if request.Fine? then 0 else 1
    {
      request := requests(asked);
      asked := asked + 1;
    }

    /** The next call of the Gateway. */
    method Call() returns (offer: Offer)
      modifies this`called
      ensures offer == offers(old(called)) && called == old(called) + 1
    {
      offer := offers(called);
      called := called + 1;
    }

    /** Since request `from` and call `call`, every request that went unanswered was counted
        as a failure and none besides, and no more was put off than calls were made. */
    predicate Tally(from: nat, call: nat, a: DecisionsTick, b: DecisionsTick)
      reads this
    {
      && from <= asked && call <= called
      && b.failures == a.failures + Failures(requests, from, asked)
      && a.deferred <= b.deferred <= a.deferred + (called - call)
    }

    lemma TallyOn(from: nat, call: nat, mid: nat, midCall: nat, a: DecisionsTick, b: DecisionsTick, c: DecisionsTick)
      requires from <= mid && call <= midCall
      requires b.failures == a.failures + Failures(requests, from, mid)
      requires a.deferred <= b.deferred <= a.deferred + (midCall - call)
      requires Tally(mid, midCall, b, c)
      ensures Tally(from, call, a, c)
    {
      FailuresJoin(requests, from, mid, asked);
    }

    /** Between two requests of `task`: any steps of the others, or none. */
    method OthersMove(ghost task: Task)
      modifies this`w
      ensures ByOthersThan(task, cfg, old(w), w)
    {
      assert Run(cfg, w, []) == Some(w);
    }

    /** The others move, and `task`'s own place is as it was. */
    method Await(ghost task: Task)
      requires Inv(cfg, w)
      modifies this`w
      ensures Leads(cfg, old(w), w) && LeftAlone(task, old(w), w)
    {
      OthersMove(task);
      OthersLeaveAlone(task, cfg, old(w), w);
    }

    method Take(s: Step)
      requires Inv(cfg, w) && Can(cfg, w, s)
      modifies this`w
      ensures w == Do(cfg, old(w), s) && Leads(cfg, old(w), w)
    {
      LeadsStep(cfg, w, s);
      w := Do(cfg, w, s);
    }

    /** A tick whose first requests, up to `mid`, were answered. */
    lemma TallyFrom(from: nat, mid: nat, call: nat, tick: DecisionsTick)
      requires from <= mid && Failures(requests, from, mid) == 0 && Tally(mid, call, NO_TICK, tick)
      ensures Tally(from, call, NO_TICK, tick)
    {
      FailuresJoin(requests, from, mid, asked);
    }

    // -------------------------------------------------------------- the suggestions consumer

    /** The read at posting time. */
    method ReadBeforePost(said: ReadReply)
      requires Inv(cfg, w) && w.consumer.Clear?
      modifies this`w
      ensures Leads(cfg, old(w), w) && w.log == old(w.log) && w.acked == old(w.acked)
      ensures w.relay == old(w.relay) && w.stream == old(w.stream)
      ensures var m, v := old(w).consumer.m, old(w);
        w.consumer ==
          if said.approved && !said.dies && v.session.Alive? && v.stream[m].id in v.gateway.rows then Handled(m, SkippedAlreadyApproved)
          else Unapproved(m)
    {
      var m := w.consumer.m;
      var dies := said.dies && w.session.Alive?;
      var approved := said.approved && w.session.Alive? && !dies && w.stream[m].id in w.gateway.rows;
      Take(ReadSuggestion(approved, dies));
    }

    /** The post, as the event the relay would store. */
    method PostIt(id: string, createdAt: U64, write: Request)
      requires Inv(cfg, w) && w.consumer.Unapproved? && forall p :: p in w.relay.everPosts ==> p.id != id
      modifies this`w
      ensures Leads(cfg, old(w), w) && w.log == old(w.log) && w.acked == old(w.acked)
      ensures var m := old(w).consumer.m;
        && m < |old(w).stream| && old(w).stream[m].Suggestion?
        && w.consumer == Handled(m, if write.Fine? then Posted else if write.transient then Naked else RefusedForGood)
        && w.relay.everPosts
          == old(w).relay.everPosts + if write.Took() then {NewPost(id, old(w).stream[m], createdAt)} else {}
    {
      Take(WritePost(id, createdAt, write.Took(), write.Fine?, write.Lost? && write.transient));
    }

    /** One delivery of a message, up to its settlement. Each outcome is named for its one
        reason, and a post is written only where none stood for the suggestion. `look`,
        `said` and `write` are how its three requests go. */
    method HandleSuggestion(m: nat, id: string, createdAt: U64, look: Request, said: ReadReply, write: Request)
        returns (ghost read: World)
      requires Inv(cfg, w) && w.consumer.Idle? && m < |w.stream| && m !in w.acked
      requires forall p :: p in w.relay.everPosts ==> p.id != id
      modifies this`w
      ensures Leads(cfg, old(w), read) && Leads(cfg, read, w) && w.log == old(w.log) && w.acked == old(w.acked)
      ensures HandledAs(cfg, old(w), w, m, id, createdAt, look, said, write, read)
    {
      LookAt(m, look);
      ghost var v := w;
      if w.consumer.Clear? {
        read := PostUnlessApproved(id, createdAt, said, write);
        LeadsOn(cfg, old(w), v, read);
      } else {
        read := w;
        LeadsNowhere(cfg, w);
      }
    }

    /** The clerk's own posts, looked through for one that names the suggestion. */
    method LookAt(m: nat, look: Request)
      requires Inv(cfg, w) && w.consumer.Idle? && m < |w.stream| && m !in w.acked
      modifies this`w
      ensures Leads(cfg, old(w), w)
      ensures w == old(w).(consumer :=
        match SettledEarly(cfg, old(w), m, look)
        case Some(outcome) => Handled(m, outcome)
        case None => Clear(m))
    {
      LookIs(cfg, w, m, look);
      Take(Look(m, look.Fine?, look.Lost? && look.transient));
    }

    /** No post stands for the message: read the Gateway, then post. */
    method PostUnlessApproved(id: string, createdAt: U64, said: ReadReply, write: Request) returns (ghost read: World)
      requires Inv(cfg, w) && w.consumer.Clear?
      requires forall p :: p in w.relay.everPosts ==> p.id != id
      modifies this`w
      ensures Leads(cfg, old(w), read) && Leads(cfg, read, w) && w.log == old(w.log) && w.acked == old(w.acked)
      ensures PostedAs(old(w), w, old(w).consumer.m, id, createdAt, said, write, read)
    {
      Await(Suggestions);
      read := w;
      ReadBeforePost(said);
      if w.consumer.Unapproved? {
        ghost var v := w;
        Await(Suggestions);
        LeadsOn(cfg, read, v, w);
        v := w;
        PostIt(id, createdAt, write);
        LeadsOn(cfg, read, v, w);
      }
    }

    /** Acks or naks: one entry in the log, and an ack for every outcome but a nak. */
    method SettleIt(took: bool) returns (outcome: Outcome)
      requires Inv(cfg, w) && w.consumer.Handled?
      modifies this`w
      ensures Leads(cfg, old(w), w) && w.consumer.Idle? && w.relay == old(w).relay
      ensures outcome == old(w).consumer.outcome && w.log == old(w.log) + [(old(w).consumer.m, outcome)]
      ensures w.acked == old(w.acked) + if took && !outcome.Naked? then {old(w).consumer.m} else {}
    {
      outcome := w.consumer.outcome;
      Take(Settle(took));
    }

    // -------------------------------------------------------------- the journal consumer

    /** One line for a report, unless the relay already holds one with its tag, and what became
        of it. `look` and `write` are how its two requests go. */
    method JournalLine(report: Report, look: Request, write: Request) returns (lined: Lined)
      requires Inv(cfg, w) && w.journalist.Resting?
      modifies this`w
      ensures Leads(cfg, old(w), w) && w.journalist.Resting?
      ensures w.relay.journal
        == old(w).relay.journal
          + if look.Fine? && TagOf(report) !in old(w).relay.journal && write.Took() then [TagOf(report)] else []
      ensures lined ==
        if !look.Fine? then LookFailed
        else if TagOf(report) in old(w).relay.journal then LineStood
        else if write.Fine? then Wrote
        else WriteFailed
    {
      LineIsLookedFor(w, report, look.Fine?);
      Take(LookForLine(report, look.Fine?));
      if !look.Fine? {
        lined := LookFailed;
      } else if w.journalist.Resting? {
        lined := LineStood;
      } else {
        ghost var v := w;
        WriteIt(write);
        LeadsOn(cfg, old(w), v, w);
        lined := if write.Fine? then Wrote else WriteFailed;
      }
    }

    /** The line that was looked for and not found. */
    method WriteIt(write: Request)
      requires Inv(cfg, w) && w.journalist.Unlined?
      modifies this`w
      ensures Leads(cfg, old(w), w) && w.journalist.Resting?
      ensures w.relay.journal == old(w).relay.journal + if write.Took() then [old(w).journalist.reference] else []
    {
      Await(Journal);
      ghost var v := w;
      Take(WriteLine(write.Took()));
      LeadsOn(cfg, old(w), v, w);
    }

    // -------------------------------------------------------------- the sweep

    /** The clerk's standing posts, in some order. */
    method OwnPosts() returns (order: seq<Post>)
      requires PostsOk(w.relay)
      ensures Enumerates(order, w.relay.posts)
    {
      order := [];
      var left := w.relay.posts.Keys;
      while left != {}
        invariant left <= w.relay.posts.Keys
        invariant forall p :: p in order ==> p.id in w.relay.posts && p.id !in left && w.relay.posts[p.id] == p
        invariant forall id :: id in w.relay.posts ==> id in left || w.relay.posts[id] in order
        invariant forall i, j :: 0 <= i < j < |order| ==> order[i].id != order[j].id
        decreases left
      {
        var id :| id in left;
        left := left - {id};
        order := order + [w.relay.posts[id]];
      }
    }

    /** The pass's next post, judged as of the time it was read and taken down if due. */
    method SweepOne() returns (undated: bool, failed: bool)
      requires Inv(cfg, w) && w.sweeper.Sweeping? && w.sweeper.todo != []
      modifies this
      ensures Leads(cfg, old(w), w) && SweptOne(cfg, old(w), w, undated, failed)
      ensures asked == old(asked) + if DueOn(old(w).sweeper.todo[0], old(w).sweeper.at, cfg.clock) then 1 else 0
      ensures (if failed then 1 else 0) == Failures(requests, old(asked), asked)
    {
      var Sweeping(at, todo) := w.sweeper;
      var verdict := VerdictOn(todo[0].about, todo[0].createdAt, at, cfg.clock);
      undated := Undated(verdict);
      VerdictSays(todo[0], at, cfg.clock);
      Await(Sweep);
      ghost var v := w;
      var request := Fine;
      if Deletes(verdict) {
        request := Ask();
      }
      Take(SweepNext(request.Took()));
      LeadsOn(cfg, old(w), v, w);
      failed := !request.Fine?;
    }

    /** One pass: every post read is judged as of the time it was read, and those due are
        taken down, never to stand again. Answers how many of them it could not date, and
        none if they could not be read; counts the requests that went unanswered. */
    method SweepOnce() returns (undatable: nat, failures: nat)
      requires Inv(cfg, w) && w.sweeper.Asleep?
      modifies this
      ensures Leads(cfg, old(w), w) && w.sweeper.Asleep?
      ensures old(asked) <= asked && failures == Failures(requests, old(asked), asked)
      ensures
        if requests(old(asked)).Fine? then undatable == |UndatedIds(old(w).relay.posts, cfg.clock)|
        else undatable == 0 && failures == 1 && w == old(w)
      ensures failures == 0 ==> forall id :: id in old(w).relay.posts && DueOn(old(w).relay.posts[id], old(w).now, cfg.clock) ==> id !in w.relay.posts
    {
      var read := Ask();
      ghost var from := asked;
      if !read.Fine? {
        LeadsNowhere(cfg, w);
        return 0, 1;
      }
      undatable, failures := SweepAll();
      FailuresJoin(requests, old(asked), from, asked);
    }

    /** Every post there is, read and then swept. */
    method SweepAll() returns (undatable: nat, failures: nat)
      requires Inv(cfg, w) && w.sweeper.Asleep?
      modifies this
      ensures Leads(cfg, old(w), w) && w.sweeper.Asleep?
      ensures old(asked) <= asked && failures == Failures(requests, old(asked), asked)
      ensures undatable == |UndatedIds(old(w).relay.posts, cfg.clock)|
      ensures failures == 0 ==> forall id :: id in old(w).relay.posts && DueOn(old(w).relay.posts[id], old(w).now, cfg.clock) ==> id !in w.relay.posts
    {
      var at := w.now;
      var posts := OwnPosts();
      Take(SweepReads(posts));
      ghost var v := w;
      undatable, failures := SweepThrough(at, posts);
      LeadsOn(cfg, old(w), v, w);
      EveryUndatedCounts(old(w).relay.posts, posts, cfg.clock);
    }

    /** The pass over the posts read. */
    method SweepThrough(at: I64, posts: seq<Post>) returns (undatable: nat, failures: nat)
      requires Inv(cfg, w) && WereWritten(posts, w)
      requires w.sweeper == if posts == [] then Asleep else Sweeping(at, posts)
      modifies this
      ensures Leads(cfg, old(w), w) && w.sweeper.Asleep?
      ensures old(asked) <= asked && failures == Failures(requests, old(asked), asked)
      ensures undatable == HowManyUndated(posts, cfg.clock)
      ensures failures == 0 ==> Swept(posts, |posts|, at, cfg.clock, w)
    {
      undatable, failures := 0, 0;
      PassBegins(cfg, w, at, posts);
      var i: nat := 0;
      while i < |posts|
        invariant i <= |posts| && PassSoFar(cfg, old(w), w, at, posts, i, undatable, failures)
        invariant old(asked) <= asked && failures == Failures(requests, old(asked), asked)
      {
        undatable, failures := SweepAt(old(w), old(asked), at, posts, i, undatable, failures);
        i := i + 1;
      }
      PassEnds(cfg, old(w), w, at, posts, undatable, failures);
    }

    /** One post on, in the middle of a pass from `from`, its requests from number `first` on. */
    method SweepAt(ghost from: World, ghost first: nat, ghost at: I64, ghost posts: seq<Post>, ghost i: nat, undatable: nat, failures: nat)
        returns (u: nat, f: nat)
      requires i < |posts| && PassSoFar(cfg, from, w, at, posts, i, undatable, failures)
      requires first <= asked && failures == Failures(requests, first, asked)
      modifies this
      ensures PassSoFar(cfg, from, w, at, posts, i + 1, u, f)
      ensures first <= asked && f == Failures(requests, first, asked)
    {
      ghost var v := w;
      var undated, failed := SweepOne();
      OneMoreSwept(cfg, from, v, w, at, posts, i, undatable, failures, undated, failed);
      u := if undated then undatable + 1 else undatable;
      f := if failed then failures + 1 else failures;
      FailuresJoin(requests, first, old(asked), asked);
    }

    // -------------------------------------------------------------- the decisions loop

    /** A thread answer that is one request on its own: to a stranger, to a gesture that came
        too late, or to an approval that meets a dead session. */
    method AnswerNow(tick: DecisionsTick) returns (t: DecisionsTick)
      requires Inv(cfg, w) && w.decider.Working? && w.decider.todo != [] && AnswersAtOnce(w)
      modifies this
      ensures Leads(cfg, old(w), w) && Accounts(tick, t, old(w), w) && t != tick
      ensures w.decider == Resume(old(w).decider.seen, old(w).decider.spent, old(w).decider.todo[1..])
      ensures asked == old(asked) + 1 && called == old(called)
      ensures Failures(requests, old(asked), asked) == if requests(old(asked)).Fine? then 0 else 1
      ensures Replied(old(w), w, tick, t, old(w).decider.todo[0], ReplyAtOnce(old(w).decider.todo[0]), requests(old(asked)))
      ensures Calm(tick, t) ==> Attended(old(w).decider.todo[0], w)
    {
      var request := Ask();
      AnswerItem(request.Took());
      t := if request.Fine? then tick.(answered := tick.answered + 1) else tick.(failures := tick.failures + 1);
    }

    method AnswerItem(took: bool)
      requires Inv(cfg, w) && w.decider.Working? && w.decider.todo != [] && AnswersAtOnce(w)
      modifies this`w
      ensures Leads(cfg, old(w), w) && w.decider == Resume(old(w).decider.seen, old(w).decider.spent, old(w).decider.todo[1..])
      ensures var item := old(w).decider.todo[0];
        && w.relay.answers == old(w).relay.answers + (if took then [Answer(item.post.id, item.d.gestureId, ReplyAtOnce(item))] else [])
        && (took ==> Attended(item, w))
    {
      AnsweredAtOnce(cfg, w);
      AtOnceIs(cfg, w, took);
      Take(NextItem(took));
    }

    /** The reply the Gateway's answer asks for. */
    method AnswerThen(tick: DecisionsTick) returns (t: DecisionsTick)
      requires Inv(cfg, w) && w.decider.Saying?
      modifies this
      ensures Leads(cfg, old(w), w) && Accounts(tick, t, old(w), w) && t != tick
      ensures w.decider == Resume(old(w).decider.seen, old(w).decider.spent, old(w).decider.todo)
      ensures asked == old(asked) + 1 && called == old(called)
      ensures Failures(requests, old(asked), asked) == if requests(old(asked)).Fine? then 0 else 1
      ensures Replied(old(w), w, tick, t, old(w).decider.item, old(w).decider.reply, requests(old(asked)))
      ensures Calm(tick, t) ==> Attended(old(w).decider.item, w)
    {
      Await(Decisions);
      ghost var v := w;
      t := SayNow(tick);
      LeadsOn(cfg, old(w), v, w);
    }

    method SayNow(tick: DecisionsTick) returns (t: DecisionsTick)
      requires Inv(cfg, w) && w.decider.Saying?
      modifies this
      ensures Leads(cfg, old(w), w) && Accounts(tick, t, old(w), w) && t != tick
      ensures w.decider == Resume(old(w).decider.seen, old(w).decider.spent, old(w).decider.todo)
      ensures asked == old(asked) + 1 && called == old(called)
      ensures Failures(requests, old(asked), asked) == if requests(old(asked)).Fine? then 0 else 1
      ensures Replied(old(w), w, tick, t, old(w).decider.item, old(w).decider.reply, requests(old(asked)))
      ensures Calm(tick, t) ==> Attended(old(w).decider.item, w)
    {
      var request := Ask();
      SaidIsAttended(cfg, w);
      Take(SayInThread(request.Took()));
      t := if request.Fine? then tick.(answered := tick.answered + 1) else tick.(failures := tick.failures + 1);
    }

    /** The post of an approval that went out, taken down. */
    method WentOutPost(tick: DecisionsTick) returns (t: DecisionsTick)
      requires Inv(cfg, w) && w.decider.Deleting?
      modifies this
      ensures Leads(cfg, old(w), w) && w.relay.answers == old(w).relay.answers
      ensures w.decider == Resume(old(w).decider.seen, old(w).decider.spent, old(w).decider.todo)
      ensures asked == old(asked) + 1 && called == old(called)
      ensures Failures(requests, old(asked), asked) == if requests(old(asked)).Fine? then 0 else 1
      ensures t == if requests(old(asked)).Fine? then tick.(approved := tick.approved + 1) else tick.(failures := tick.failures + 1)
      ensures requests(old(asked)).Took() ==> TakenDownAsSent(old(w).decider.item, w)
    {
      Await(Decisions);
      ghost var v := w;
      t := TakeDownNow(tick);
      LeadsOn(cfg, old(w), v, w);
    }

    method TakeDownNow(tick: DecisionsTick) returns (t: DecisionsTick)
      requires Inv(cfg, w) && w.decider.Deleting?
      modifies this
      ensures Leads(cfg, old(w), w) && w.relay.answers == old(w).relay.answers
      ensures w.decider == Resume(old(w).decider.seen, old(w).decider.spent, old(w).decider.todo)
      ensures asked == old(asked) + 1 && called == old(called)
      ensures Failures(requests, old(asked), asked) == if requests(old(asked)).Fine? then 0 else 1
      ensures t == if requests(old(asked)).Fine? then tick.(approved := tick.approved + 1) else tick.(failures := tick.failures + 1)
      ensures requests(old(asked)).Took() ==> TakenDownAsSent(old(w).decider.item, w)
    {
      var request := Ask();
      Take(DeleteDecided(request.Took()));
      t := if request.Fine? then tick.(approved := tick.approved + 1) else tick.(failures := tick.failures + 1);
    }

    /** The owner's refusal: the post taken down, and nobody else told. */
    method CarryRefusal(tick: DecisionsTick) returns (t: DecisionsTick)
      requires Inv(cfg, w) && w.decider.Working? && w.decider.todo != [] && Refuses(w.decider.todo[0])
      modifies this
      ensures Leads(cfg, old(w), w) && w.relay.answers == old(w).relay.answers && w.gateway == old(w).gateway
      ensures w.decider == Resume(old(w).decider.seen, old(w).decider.spent, old(w).decider.todo[1..])
      ensures asked == old(asked) + 1 && called == old(called)
      ensures Failures(requests, old(asked), asked) == if requests(old(asked)).Fine? then 0 else 1
      ensures t == if requests(old(asked)).Fine? then tick.(refusedLocally := tick.refusedLocally + 1) else tick.(failures := tick.failures + 1)
      ensures requests(old(asked)).Took() ==> old(w).decider.todo[0].post.id !in w.relay.posts
    {
      var request := Ask();
      Take(NextItem(request.Took()));
      t := if request.Fine? then tick.(refusedLocally := tick.refusedLocally + 1) else tick.(failures := tick.failures + 1);
    }

    /** One call of the Gateway's approval, what its answer was and when it was heard, and what
        it asks for next. */
    method Approve() returns (answer: GatewayAnswer, ghost heard: World)
      requires Inv(cfg, w) && Approves(w)
      modifies this`w, this`called
      ensures Leads(cfg, old(w), heard) && Leads(cfg, heard, w) && w.relay.answers == old(w).relay.answers
      ensures called == old(called) + 1 && Heard(heard, answer, offers(old(called)).answer)
      ensures FollowsFrom(cfg, old(w).decider, heard, answer, w.decider)
    {
      ApprovalIsAsked(cfg, w);
      Take(NextItem(false));
      ghost var v := w;
      var offer := Call();
      answer, heard := AnswerApproval(old(w).decider, offer.answer);
      LeadsOn(cfg, old(w), v, heard);
    }

    /** The wait for the Gateway's answer to the approval of the first item of `d`. */
    method AnswerApproval(ghost d: Decider, offered: GatewayAnswer) returns (answer: GatewayAnswer, ghost heard: World)
      requires Inv(cfg, w) && d.Working? && d.todo != [] && d.todo[0].Act? && w.decider.Asking?
      requires w.decider == Asking(d.seen, d.spent, d.todo[0], w.decider.run, d.todo[1..])
      modifies this`w
      ensures Leads(cfg, old(w), heard) && Leads(cfg, heard, w) && w.relay.answers == old(w).relay.answers
      ensures Heard(heard, answer, offered) && FollowsFrom(cfg, d, heard, answer, w.decider)
    {
      Await(Decisions);
      heard := w;
      RunIsThere(cfg, w);
      answer := HearAnswer(d, offered);
    }

    method HearAnswer(ghost d: Decider, offered: GatewayAnswer) returns (answer: GatewayAnswer)
      requires Inv(cfg, w) && d.Working? && d.todo != [] && d.todo[0].Act? && w.decider.Asking?
      requires w.decider == Asking(d.seen, d.spent, d.todo[0], w.decider.run, d.todo[1..]) && w.decider.run < |w.gateway.runs|
      modifies this`w
      ensures Leads(cfg, old(w), w) && w.relay == old(w).relay
      ensures Heard(old(w), answer, offered) && FollowsFrom(cfg, d, old(w), answer, w.decider)
    {
      answer := offered;
      if !Truthful(w.gateway.runs[w.decider.run].phase, answer) {
        answer := NoUsableAnswer;
      }
      ApprovalFollows(cfg, d, w, answer);
      Take(GatewayAnswers(answer));
    }

    /** The owner's approval, carried: one call, and what its answer asks for. */
    method CarryApproval(tick: DecisionsTick) returns (t: DecisionsTick, answer: GatewayAnswer, ghost heard: World)
      requires Inv(cfg, w) && Approves(w)
      modifies this
      ensures Leads(cfg, old(w), heard) && Leads(cfg, heard, w) && Accounts(tick, t, old(w), w)
      ensures w.decider == Resume(old(w).decider.seen, old(w).decider.spent, old(w).decider.todo[1..])
      ensures called == old(called) + 1 && Heard(heard, answer, offers(old(called)).answer)
      ensures CarriedAs(cfg, old(w), w, tick, t, old(w).decider.todo[0], heard, answer, requests(old(asked)))
      ensures var more := if WentOutOn(answer) || ToldAfter(cfg, heard, old(w).decider.todo[0], answer).Some? then 1 else 0;
        asked == old(asked) + more && Failures(requests, old(asked), asked) == if more == 1 && requests(old(asked)).Lost? then 1 else 0
      ensures t == tick ==> old(w).decider.todo[0].told
      ensures t.approved > tick.approved ==> TakenDownAsSent(old(w).decider.todo[0], w)
      ensures Calm(tick, t) ==> Attended(old(w).decider.todo[0], w)
    {
      ToldIsTold(cfg, w);
      answer, heard := Approve();
      ghost var v := w;
      t := FollowUp(if Defers(answer) then tick.(deferred := tick.deferred + 1) else tick);
      LeadsOn(cfg, heard, v, w);
    }

    /** What the Gateway's answer asks for, if anything. */
    method FollowUp(tick: DecisionsTick) returns (t: DecisionsTick)
      requires Inv(cfg, w) && (w.decider.Deleting? || w.decider.Saying? || w.decider.Working? || w.decider.Waiting?)
      modifies this
      ensures Leads(cfg, old(w), w) && Accounts(tick, t, old(w), w) && called == old(called)
      ensures var d, request := old(w).decider, requests(old(asked));
        if d.Deleting? then
          && w.relay.answers == old(w).relay.answers && (request.Took() ==> TakenDownAsSent(d.item, w))
          && t == if request.Fine? then tick.(approved := tick.approved + 1) else tick.(failures := tick.failures + 1)
        else if d.Saying? then Replied(old(w), w, tick, t, d.item, d.reply, request) && (request.Fine? ==> Attended(d.item, w))
        else w == old(w) && t == tick
      ensures var d := old(w).decider;
        d.Deleting? || d.Saying? ==> w.decider == Resume(d.seen, d.spent, d.todo)
      ensures var more := if old(w).decider.Deleting? || old(w).decider.Saying? then 1 else 0;
        asked == old(asked) + more && Failures(requests, old(asked), asked) == if more == 1 && requests(old(asked)).Lost? then 1 else 0
    {
      t := tick;
      if w.decider.Deleting? {
        t := WentOutPost(t);
      } else if w.decider.Saying? {
        t := AnswerThen(t);
      } else {
        LeadsNowhere(cfg, w);
      }
    }

    /** The owner's oldest undecided gesture on a post, carried; `from` is when it was taken
        up. */
    method Carry(tick: DecisionsTick) returns (t: DecisionsTick, ghost from: World, answer: GatewayAnswer, ghost heard: World)
      requires Inv(cfg, w) && w.decider.Working? && w.decider.todo != [] && w.decider.todo[0].Act?
      modifies this
      ensures Leads(cfg, old(w), from) && Leads(cfg, from, w) && from.decider == old(w).decider
      ensures from.relay.answers == old(w).relay.answers && Accounts(tick, t, old(w), w)
      ensures w.decider == Resume(old(w).decider.seen, old(w).decider.spent, old(w).decider.todo[1..])
      ensures CarriedFrom(cfg, from, w, tick, t, answer, heard, requests(old(asked)), offers(old(called)))
      ensures Tally(old(asked), old(called), tick, t)
      ensures t == tick ==> WaitsSilently(old(w).decider.todo[0])
      ensures t.Decided() <= tick.Decided() + 1
      ensures t.Decided() > tick.Decided() ==> old(w).decider.todo[0].post.id !in w.relay.posts
      ensures Calm(tick, t) ==> Attended(old(w).decider.todo[0], w)
    {
      Await(Decisions);
      from := w;
      t, answer, heard := CarryNow(tick);
    }

    method CarryNow(tick: DecisionsTick) returns (t: DecisionsTick, answer: GatewayAnswer, ghost heard: World)
      requires Inv(cfg, w) && w.decider.Working? && w.decider.todo != [] && w.decider.todo[0].Act?
      modifies this
      ensures Leads(cfg, old(w), w) && Accounts(tick, t, old(w), w)
      ensures w.decider == Resume(old(w).decider.seen, old(w).decider.spent, old(w).decider.todo[1..])
      ensures CarriedFrom(cfg, old(w), w, tick, t, answer, heard, requests(old(asked)), offers(old(called)))
      ensures Tally(old(asked), old(called), tick, t)
      ensures t == tick ==> WaitsSilently(old(w).decider.todo[0])
      ensures t.Decided() <= tick.Decided() + 1
      ensures t.Decided() > tick.Decided() ==> old(w).decider.todo[0].post.id !in w.relay.posts
      ensures Calm(tick, t) ==> Attended(old(w).decider.todo[0], w)
    {
      if Approves(w) {
        t, answer, heard := CarryAsked(tick);
      } else {
        answer, heard := NoUsableAnswer, w;
        t := CarryAlone(tick, answer, heard);
      }
    }

    /** What the Gateway is asked about. */
    method CarryAsked(tick: DecisionsTick) returns (t: DecisionsTick, answer: GatewayAnswer, ghost heard: World)
      requires Inv(cfg, w) && Approves(w)
      modifies this
      ensures Leads(cfg, old(w), w) && Accounts(tick, t, old(w), w)
      ensures w.decider == Resume(old(w).decider.seen, old(w).decider.spent, old(w).decider.todo[1..])
      ensures CarriedFrom(cfg, old(w), w, tick, t, answer, heard, requests(old(asked)), offers(old(called)))
      ensures Tally(old(asked), old(called), tick, t)
      ensures t == tick ==> WaitsSilently(old(w).decider.todo[0])
      ensures t.Decided() <= tick.Decided() + 1
      ensures t.Decided() > tick.Decided() ==> old(w).decider.todo[0].post.id !in w.relay.posts
      ensures Calm(tick, t) ==> Attended(old(w).decider.todo[0], w)
    {
      t, answer, heard := CarryApproval(tick);
      CarriedCounts(cfg, old(w), w, tick, t, heard, answer, requests(old(asked)), offers(old(called)));
      LeadsOn(cfg, old(w), heard, w);
    }

    /** What the Gateway is not asked about. */
    method CarryAlone(tick: DecisionsTick, ghost answer: GatewayAnswer, ghost heard: World) returns (t: DecisionsTick)
      requires Inv(cfg, w) && w.decider.Working? && w.decider.todo != [] && w.decider.todo[0].Act? && !Approves(w)
      modifies this
      ensures Leads(cfg, old(w), w) && Accounts(tick, t, old(w), w)
      ensures w.decider == Resume(old(w).decider.seen, old(w).decider.spent, old(w).decider.todo[1..])
      ensures CarriedFrom(cfg, old(w), w, tick, t, answer, heard, requests(old(asked)), offers(old(called)))
      ensures Tally(old(asked), old(called), tick, t)
      ensures t == tick ==> WaitsSilently(old(w).decider.todo[0])
      ensures t.Decided() <= tick.Decided() + 1
      ensures t.Decided() > tick.Decided() ==> old(w).decider.todo[0].post.id !in w.relay.posts
      ensures Calm(tick, t) ==> Attended(old(w).decider.todo[0], w)
    {
      var item := w.decider.todo[0];
      ToldIsTold(cfg, w);
      if item.post.about.None? || (item.told && !item.d.gesture.Refuse?) {
        PassOver();
        t := tick;
      } else if item.d.gesture.Refuse? {
        t := CarryRefusal(tick);
      } else {
        t := AnswerNow(tick);
      }
    }

    /** A gesture on a post that names no suggestion, or one that was told "revoked" and waits
        for the session: nothing is done about it. */
    method PassOver()
      requires Inv(cfg, w) && w.decider.Working? && w.decider.todo != [] && w.decider.todo[0].Act?
      requires var item := w.decider.todo[0];
        item.post.about.None? || (item.told && !item.d.gesture.Refuse? && w.session.Dead?)
      modifies this`w
      ensures Leads(cfg, old(w), w) && w.relay == old(w).relay && w.gateway == old(w).gateway
      ensures w.decider == Resume(old(w).decider.seen, old(w).decider.spent, old(w).decider.todo[1..])
    {
      Take(NextItem(false));
    }

    method AnswerStranger(tick: DecisionsTick) returns (t: DecisionsTick)
      requires Inv(cfg, w) && w.decider.Working? && w.decider.todo != []
      requires w.decider.todo[0].Stranger? || w.decider.todo[0].Late?
      modifies this
      ensures Leads(cfg, old(w), w) && Accounts(tick, t, old(w), w) && t != tick
      ensures w.decider == Resume(old(w).decider.seen, old(w).decider.spent, old(w).decider.todo[1..])
      ensures asked == old(asked) + 1 && called == old(called) && Tally(old(asked), old(called), tick, t)
      ensures Replied(old(w), w, tick, t, old(w).decider.todo[0], if old(w).decider.todo[0].Stranger? then NotTheOwner else Reply.Expired, requests(old(asked)))
      ensures Calm(tick, t) ==> Attended(old(w).decider.todo[0], w)
    {
      Await(Decisions);
      ghost var v := w;
      t := AnswerNow(tick);
      LeadsOn(cfg, old(w), v, w);
    }

    /** Every stranger on a post, answered or the failure counted. */
    method AnswerStrangers(tick: DecisionsTick, ghost post: Post, strangers: seq<Decision>, ghost seen: seq<Event>, ghost spent: set<string>, ghost rest: seq<Item>)
        returns (t: DecisionsTick)
      requires Inv(cfg, w) && w.decider == Resume(seen, spent, StrangerItems(post, strangers) + rest)
      requires post in w.relay.everPosts
      modifies this
      ensures PostDecided(cfg, old(w), w, tick, t, post, StrangerItems(post, strangers)) && t.Decided() == tick.Decided()
      ensures w.decider == Resume(seen, spent, rest)
      ensures t == tick ==> strangers == []
      ensures Tally(old(asked), old(called), tick, t)
    {
      ghost var items := StrangerItems(post, strangers);
      StrangerItemsAre(post, strangers);
      AnswersBegin(cfg, w, tick, items, rest, seen, spent);
      t := tick;
      var i: nat := 0;
      while i < |strangers|
        invariant Tally(old(asked), old(called), tick, t)
        invariant i <= |strangers| && AnswersSoFar(cfg, old(w), w, tick, t, items, rest, i, seen, spent)
      {
        ghost var mid, midCall, b := asked, called, t;
        t := AnswerNext(old(w), tick, t, items, rest, i, seen, spent);
        TallyOn(old(asked), old(called), mid, midCall, tick, b, t);
        i := i + 1;
      }
      AnswersEnd(cfg, old(w), w, tick, t, items, rest, seen, spent);
    }

    /** One stranger on, in the middle of a list begun at `from`. */
    method AnswerNext(
        ghost from: World, ghost a: DecisionsTick, tick: DecisionsTick, ghost items: seq<Item>, ghost rest: seq<Item>, ghost i: nat,
        ghost seen: seq<Event>, ghost spent: set<string>)
        returns (t: DecisionsTick)
      requires Inv(cfg, w) && i < |items| && items[i].Stranger?
      requires AnswersSoFar(cfg, from, w, a, tick, items, rest, i, seen, spent)
      modifies this
      ensures AnswersSoFar(cfg, from, w, a, t, items, rest, i + 1, seen, spent)
      ensures Tally(old(asked), old(called), tick, t)
    {
      ghost var v := w;
      NextAnswer(items, rest, i);
      t := AnswerStranger(tick);
      OneItemOn(cfg, from, v, w, a, tick, t, items, rest, i, seen, spent);
    }

    /** One post: the strangers answered, the owner's oldest carried, or told it came too
        late. A post on which nothing is counted had nothing on it but what waits; one on
        which nothing failed and nothing was put off has nothing left on it. */
    method DecideOn(tick: DecisionsTick, expired: bool, post: Post, seen: seq<Event>, spent: set<string>, told: set<string>, ghost rest: seq<Item>)
        returns (t: DecisionsTick)
      requires Inv(cfg, w) && w.decider == Resume(seen, spent, ItemsOn(cfg, expired, post, seen, spent, told) + rest)
      requires post in w.relay.everPosts
      modifies this
      ensures PostDecided(cfg, old(w), w, tick, t, post, ItemsOn(cfg, expired, post, seen, spent, told))
      ensures w.decider == Resume(seen, spent, rest)
      ensures Tally(old(asked), old(called), tick, t)
    {
      var decisions := ComputeDecisionsOn(post.id, cfg.owner, seen);
      var act, strangers := Triage(Unanswered(decisions, spent));
      ghost var acts, others := ActItems(expired, post, act, told), StrangerItems(post, strangers);
      Regroup(others, acts, rest);
      StrangerItemsAre(post, strangers);
      t := AnswerStrangers(tick, post, strangers, seen, spent, acts + rest);
      ghost var v, b, mid, midCall := w, t, asked, called;
      GoneStaysGone(cfg, old(w), v);
      t := ActOn(t, expired, post, act, seen, spent, told, rest);
      TallyOn(old(asked), old(called), mid, midCall, tick, b, t);
      StrangersThenOwner(cfg, old(w), v, w, tick, b, t, post, others, acts);
    }

    /** The owner's oldest on one post. */
    method ActOn(tick: DecisionsTick, expired: bool, post: Post, act: Option<Decision>, ghost seen: seq<Event>, ghost spent: set<string>, told: set<string>, ghost rest: seq<Item>)
        returns (t: DecisionsTick)
      requires Inv(cfg, w) && w.decider == Resume(seen, spent, ActItems(expired, post, act, told) + rest)
      modifies this
      ensures PostDecided(cfg, old(w), w, tick, t, post, ActItems(expired, post, act, told))
      ensures w.decider == Resume(seen, spent, rest)
      ensures Tally(old(asked), old(called), tick, t)
    {
      ghost var acts := ActItems(expired, post, act, told);
      if act.None? || (expired && act.value.gesture.Refuse?) {
        assert acts + rest == rest;
        LeadsNowhere(cfg, w);
        t := tick;
      } else {
        assert (acts + rest)[1..] == rest;
        if expired {
          t := AnswerStranger(tick);
        } else {
          ghost var from, heard;
          var answer;
          t, from, answer, heard := Carry(tick);
          LeadsOn(cfg, old(w), from, w);
        }
      }
    }

    /** The same of every post, first post first. */
    method DecideOnAll(tick: DecisionsTick, expired: bool, posts: seq<Post>, seen: seq<Event>, spent: set<string>, told: set<string>, ghost rest: seq<Item>)
        returns (t: DecisionsTick)
      requires Inv(cfg, w) && WereWritten(posts, w)
      requires w.decider == Resume(seen, spent, Plan(cfg, expired, posts, seen, spent, told) + rest)
      modifies this
      ensures PostsDecided(cfg, old(w), w, tick, t, posts, Plan(cfg, expired, posts, seen, spent, told))
      ensures w.decider == Resume(seen, spent, rest)
      ensures Tally(old(asked), old(called), tick, t)
    {
      ghost var items := PlanBegins(cfg, w, tick, expired, posts, rest, seen, spent, told);
      t := tick;
      var i: nat := 0;
      while i < |posts|
        invariant Tally(old(asked), old(called), tick, t)
        invariant i <= |posts| && PostsSoFar(cfg, old(w), w, tick, t, posts, i, items, rest, seen, spent)
      {
        ghost var mid, midCall, b := asked, called, t;
        t := DecideNext(old(w), tick, t, expired, posts, i, items, seen, spent, told, rest);
        TallyOn(old(asked), old(called), mid, midCall, tick, b, t);
        i := i + 1;
      }
      PlanEnds(cfg, old(w), w, tick, t, expired, posts, items, rest, seen, spent, told);
    }

    /** One post on, in the middle of a pass over `posts` begun at `from`. */
    method DecideNext(
        ghost from: World, ghost a: DecisionsTick, tick: DecisionsTick, expired: bool, posts: seq<Post>, i: nat, ghost items: Post -> seq<Item>,
        seen: seq<Event>, spent: set<string>, told: set<string>, ghost rest: seq<Item>)
        returns (t: DecisionsTick)
      requires Inv(cfg, w) && i < |posts| && items == ItemsFor(cfg, expired, seen, spent, told)
      requires PostsSoFar(cfg, from, w, a, tick, posts, i, items, rest, seen, spent)
      modifies this
      ensures PostsSoFar(cfg, from, w, a, t, posts, i + 1, items, rest, seen, spent)
      ensures Tally(old(asked), old(called), tick, t)
    {
      ghost var v := w;
      FlatThen(posts, i, items, rest);
      t := DecideOn(tick, expired, posts[i], seen, spent, told, Flat(posts[i + 1..], items) + rest);
      ItemsForAreOnTheirPosts(cfg, expired, seen, spent, told);
      NextPostOn(cfg, from, v, w, a, tick, t, posts, i, items, rest, seen, spent);
    }

    // -------------------------------------------------------------- what the loop reads

    /** The gestures on `posts`, queried for in chunks; fails when a query does. */
    method GesturesOn(posts: seq<Post>, answered: bool) returns (served: Served)
      requires GesturesOk(cfg, w.relay) && posts != []
      ensures served.Some? <==> answered
      ensures served.Some? ==> Serves(w.relay, cfg.clerk, posts, served.value)
    {
      var held: seq<Event> := [];
      var left := w.relay.gestures;
      while left != {}
        invariant left <= w.relay.gestures && forall e :: e in w.relay.gestures <==> e in left || e in held
        decreases left
      {
        var e :| e in left;
        left := left - {e};
        held := held + [e];
      }
      var replies := RepliesOn(held, posts, answered);
      assert Held(held) == w.relay.gestures + {};
      served := GesturesServed(w.relay, cfg.clerk, {}, posts, replies);
    }

    /** The gestures already answered on `posts`, read back off the clerk's own comments. */
    method AnswersOn(posts: seq<Post>, answered: bool) returns (read: bool, spent: set<string>, told: set<string>)
      requires GesturesOk(cfg, w.relay) && AnswersRooted(w.relay) && posts != []
      ensures read <==> answered
      ensures read ==> spent == SpentOn(w.relay.answers, posts) && told == ToldOn(w.relay.answers, posts)
    {
      var own := CommentsFor(tails, channel, cfg.clerk, w.relay.answers);
      AnswersNameGestures(w.relay);
      CommentsAreOwn(tails, channel, cfg.clerk, w.relay.answers);
      var replies := RepliesOn(own, posts, answered);
      read, spent, told := AnswersServed(tails, channel, own, w.relay.answers, posts, replies);
    }

    /** The gestures on the posts read, by others; the tick is given up when they could not
        be read. */
    method ReadTheGestures() returns (read: bool, ghost served: seq<Event>, ghost at: World)
      requires Inv(cfg, w) && w.decider.Read? && w.decider.posts != []
      modifies this
      ensures Leads(cfg, old(w), w) && w.relay.answers == old(w).relay.answers
      ensures asked == old(asked) + 1 && called == old(called) && read == requests(old(asked)).Fine?
      ensures Failures(requests, old(asked), asked) == if read then 0 else 1
      ensures !read ==> w.decider.Waiting?
      ensures read ==> GesturesReadAt(cfg, old(w), at, w, served)
    {
      Await(Decisions);
      at := w;
      var request := Ask();
      read := request.Fine?;
      served := TakeGestures(read);
      LeadsOn(cfg, old(w), at, w);
    }

    method TakeGestures(answered: bool) returns (ghost served: seq<Event>)
      requires Inv(cfg, w) && w.decider.Read? && w.decider.posts != []
      modifies this`w
      ensures Leads(cfg, old(w), w) && w.relay == old(w).relay
      ensures !answered ==> w.decider.Waiting?
      ensures answered ==>
        && Serves(old(w).relay, cfg.clerk, old(w).decider.posts, served) && DeciderCan(cfg, old(w), ReadGestures(served))
        && w == DeciderDoes(cfg, old(w), ReadGestures(served))
    {
      GesturesAreOk(cfg, w);
      var answer := GesturesOn(w.decider.posts, answered);
      served := [];
      if answered {
        served := answer.value;
        Take(ReadGestures(answer.value));
      } else {
        Take(GiveUpTick);
      }
    }

    // -------------------------------------------------------------- one tick

    /** One tick, which read the gestures when the world was `read`. */
    method DecisionsOnce() returns (tick: DecisionsTick, ghost read: World)
      requires Inv(cfg, w) && w.decider.Waiting?
      modifies this
      ensures TickDone(cfg, old(w), read, w, tick)
      ensures Tally(old(asked), old(called), NO_TICK, tick)
    {
      var request := Ask();
      ghost var mid := asked;
      if !request.Fine? {
        tick, read := NO_TICK.(failures := 1), w;
        TickFailsAtOnce(cfg, w);
      } else {
        var posts := ReadThePosts();
        tick, read := TickOverPosts(old(w), posts);
        FailuresJoin(requests, old(asked), mid, asked);
      }
    }

    method TickOverPosts(ghost from: World, posts: seq<Post>) returns (tick: DecisionsTick, ghost read: World)
      requires Inv(cfg, from) && Enumerates(posts, from.relay.posts) && Leads(cfg, from, w)
      requires w == from.(decider := if posts == [] then Waiting else Read(from.now, posts))
      modifies this
      ensures TickDone(cfg, from, read, w, tick)
      ensures Tally(old(asked), old(called), NO_TICK, tick)
    {
      if posts == [] {
        tick, read := NO_TICK, from;
        TickHasNoPosts(cfg, from, w);
      } else {
        ghost var v := w;
        tick, read := DecideOnPosts(posts);
        TickIsOver(cfg, from, v, read, w, tick, posts);
      }
    }

    /** The clerk's own posts, every one that stands. */
    method ReadThePosts() returns (posts: seq<Post>)
      requires Inv(cfg, w) && w.decider.Waiting?
      modifies this`w
      ensures Leads(cfg, old(w), w) && Enumerates(posts, old(w).relay.posts)
      ensures w == old(w).(decider := if posts == [] then Waiting else Read(w.now, posts))
    {
      posts := OwnPosts();
      Take(ReadPosts(posts));
    }

    /** The loop, for a number of turns: a refresh of its own when one is due, and a tick. No
        more of its ticks do anything, and fail at and put off nothing, than things are done
        to the relay for good; and of those there are two a gesture and one a post at most.
        `history` is its turns and `deadlines` when a refresh was due at each: they are as
        scheduled, so that among turns that all end with the session dead a retry comes.
        `ticks` is an account of its ticks, one a turn. */
    method RunDecisions(turns: nat, retry: nat)
        returns (busy: nat, ghost history: seq<Turn>, ghost deadlines: seq<int>, ghost ticks: seq<Ticked>)
      requires Inv(cfg, w) && w.decider.Waiting?
      modifies this
      ensures Leads(cfg, old(w), w) && w.decider.Waiting?
      ensures busy == HowManyBusy(ticks) && busy + Done(old(w).relay) <= Done(w.relay)
      ensures busy <= 2 * |GestureIds(w.relay.everGestures)| + |w.relay.everPosts|
      ensures |history| == turns && Scheduled(deadlines, history, retry) && deadlines[0] == old(w).now && InOrder(old(w), history, w)
      ensures turns >= 2 && AllDead(history) && history[turns - 1].start >= history[0].end + retry ==>
        exists i :: 0 < i < turns && Refreshes(deadlines[i], history[i])
      ensures |ticks| == turns && AllTicked(cfg, requests, ticks, old(asked), asked, old(called), called)
    {
      busy := 0;
      var next: int := w.now;
      history, deadlines, ticks := [], [next], [];
      LoopBegins(cfg, requests, w, next, retry, asked, called);
      for turn := 0 to turns
        invariant LoopSoFar(cfg, requests, old(w), w, history, deadlines, ticks, busy, next, retry, turn, old(asked), asked, old(called), called)
      {
        busy, next, history, deadlines, ticks :=
          NextTurn(old(w), busy, next, retry, history, deadlines, ticks, turn, old(asked), old(called));
      }
      LoopEnds(cfg, requests, old(w), w, history, deadlines, ticks, busy, next, retry, turns, old(asked), asked, old(called), called);
      BusyIsBounded(cfg, old(w), w, busy);
      RetriesCome(deadlines, history, retry);
    }

    /** One turn on, in a loop begun at `begun`. */
    method NextTurn(
        ghost begun: World, busy: nat, next: int, retry: nat, ghost history: seq<Turn>, ghost deadlines: seq<int>, ghost ticks: seq<Ticked>,
        ghost turn: nat, ghost from: nat, ghost fromCall: nat)
        returns (more: nat, deadline: int, ghost h: seq<Turn>, ghost ds: seq<int>, ghost ts: seq<Ticked>)
      requires Inv(cfg, begun)
      requires LoopSoFar(cfg, requests, begun, w, history, deadlines, ticks, busy, next, retry, turn, from, asked, fromCall, called)
      modifies this
      ensures LoopSoFar(cfg, requests, begun, w, h, ds, ts, more, deadline, retry, turn + 1, from, asked, fromCall, called)
    {
      ghost var v, mid, midCall := w, asked, called;
      ghost var t;
      var ticked;
      deadline, t, ticked := OneTurn(next, retry);
      OneTurnOn(cfg, begun, v, w, history, deadlines, next, retry, t, deadline);
      OneMoreTicked(cfg, requests, ticks, ticked, from, mid, asked, fromCall, midCall, called);
      h, ds, ts := history + [t], deadlines + [deadline], ticks + [ticked];
      more := if ticked.IsBusy() then busy + 1 else busy;
    }

    /** One turn of the loop; `next` is when its next refresh is due. */
    method OneTurn(next: int, retry: nat) returns (deadline: int, ghost turn: Turn, ticked: Ticked)
      requires Inv(cfg, w) && w.decider.Waiting?
      modifies this
      ensures Leads(cfg, old(w), w) && w.decider.Waiting?
      ensures Done(w.relay) >= Done(old(w).relay) + (if ticked.IsBusy() then 1 else 0)
      ensures deadline == DeadlineAfter(next, turn, retry) && TurnBetween(old(w), turn, w)
      ensures old(asked) <= ticked.from && ticked.to == asked && old(called) <= ticked.fromCall && ticked.toCall == called
      ensures IsTicked(cfg, requests, ticked) && Leads(cfg, old(w), ticked.before) && ticked.after == w
      ensures turn.start >= next ==>
        ticked.fromCall == old(called) + 1 && turn.refreshed == (offers(old(called)).session == Some(Alive))
      ensures turn.start < next ==> ticked.fromCall == old(called)
    {
      ghost var start;
      var refreshed;
      deadline, refreshed, start := RefreshIfDue(next, retry);
      ghost var u := w;
      ticked := TickNow();
      LeadsOn(cfg, old(w), u, w);
      GoneStaysGone(cfg, u, w);
      turn := Turn(start, w.now, refreshed, w.session);
      deadline := NextRefreshFor(deadline, w.now, w.session, retry);
    }

    /** Its tick, and the account of it. */
    method TickNow() returns (ticked: Ticked)
      requires Inv(cfg, w) && w.decider.Waiting?
      modifies this
      ensures Leads(cfg, old(w), w) && w.decider.Waiting?
      ensures IsTicked(cfg, requests, ticked) && ticked.before == old(w) && ticked.after == w
      ensures ticked.from == old(asked) && ticked.to == asked && ticked.fromCall == old(called) && ticked.toCall == called
      ensures Done(w.relay) >= Done(old(w).relay) + (if ticked.IsBusy() then 1 else 0)
    {
      var u, from, fromCall := w, asked, called;
      var tick;
      ghost var read;
      tick, read := DecisionsOnce();
      ticked := Ticked(u, w, tick, from, asked, fromCall, called);
      TickIsOne(cfg, requests, read, ticked);
    }

    /** The beginning of a turn. */
    method RefreshIfDue(next: int, retry: nat) returns (deadline: int, refreshed: bool, ghost start: I64)
      requires Inv(cfg, w) && w.decider.Waiting?
      modifies this`w, this`called
      ensures Leads(cfg, old(w), w) && w.decider.Waiting? && Done(w.relay) >= Done(old(w).relay)
      ensures old(w).now <= start <= w.now
      ensures deadline == if start >= next then start + (if refreshed then 86400 else retry) else next
      ensures called == old(called) + if start >= next then 1 else 0
      ensures start >= next ==>
        && refreshed == (offers(old(called)).session == Some(Alive))
        && (offers(old(called)).session.Some? ==> w.session == offers(old(called)).session.value)
    {
      Await(Decisions);
      ghost var v := w;
      GoneStaysGone(cfg, old(w), w);
      DoneStays(old(w), w);
      deadline, refreshed, start := next, false, w.now;
      if w.now >= next {
        deadline, refreshed := RefreshSession(retry);
        LeadsOn(cfg, old(w), v, w);
      }
    }

    /** A refresh of the loop's own, and when the next is due: the session is what the answer
        says, or as it was if there is none. */
    method RefreshSession(retry: nat) returns (deadline: int, refreshed: bool)
      requires Inv(cfg, w) && w.decider.Waiting?
      modifies this`w, this`called
      ensures Leads(cfg, old(w), w) && called == old(called) + 1
      ensures var answer := offers(old(called)).session;
        && w == old(w).(session := if answer.Some? then answer.value else old(w).session)
        && refreshed == (answer == Some(Alive))
        && deadline == w.now + (if refreshed then 86400 else retry)
    {
      var offer := Call();
      Take(Refresh(offer.session));
      refreshed := offer.session == Some(Alive);
      deadline := w.now + if refreshed then SESSION_REFRESH_PERIOD else retry;
    }

    /** The rest of the tick, once its posts are read. */
    method DecideOnPosts(ghost posts: seq<Post>) returns (tick: DecisionsTick, ghost read: World)
      requires Inv(cfg, w) && w.decider.Read? && w.decider.posts == posts && posts != [] && w.decider.at <= w.now
      modifies this
      ensures PostsDecided(cfg, old(w), w, NO_TICK, tick, posts, []) && w.decider.Waiting?
      ensures Tally(old(asked), old(called), NO_TICK, tick)
      ensures Calm(NO_TICK, tick) ==>
        Leads(cfg, old(w), read) && Leads(cfg, read, w) && forall post :: post in posts ==> NothingLeft(cfg, read, w, post)
    {
      var ok;
      ghost var served;
      ok, served, read := ReadTheGestures();
      ghost var v, mid := w, asked;
      if !ok {
        tick := NO_TICK.(failures := 1);
        LeadsNowhere(cfg, w);
        TickFailed(cfg, old(w), w, w, posts, []);
      } else if w.decider.Waiting? {
        tick := NO_TICK;
        NothingToSee(cfg, old(w), read, w, served);
      } else {
        tick := ReadAnswersAndDecide();
        FailuresJoin(requests, old(asked), mid, asked);
        TickLeavesNothing(cfg, old(w), read, v, w, served, tick);
      }
    }

    /** The answers already given on the posts read. */
    method ReadTheAnswers() returns (read: bool, spent: set<string>, told: set<string>)
      requires Inv(cfg, w) && w.decider.Seen? && w.decider.posts != []
      modifies this
      ensures Leads(cfg, old(w), w) && w.decider == old(w).decider && w.relay.answers == old(w).relay.answers
      ensures asked == old(asked) + 1 && called == old(called) && read == requests(old(asked)).Fine?
      ensures Failures(requests, old(asked), asked) == if read then 0 else 1
      ensures read ==>
        spent == SpentOn(w.relay.answers, w.decider.posts) && told == ToldOn(w.relay.answers, w.decider.posts)
    {
      Await(Decisions);
      SeenIsOk(cfg, w);
      GesturesAreOk(cfg, w);
      var request := Ask();
      read, spent, told := AnswersOn(w.decider.posts, request.Fine?);
    }

    /** The answers already given, and then what they leave to do. */
    method ReadAnswersAndDecide() returns (tick: DecisionsTick)
      requires Inv(cfg, w) && w.decider.Seen? && w.decider.posts != []
      modifies this
      ensures w.decider.Waiting?
      ensures Tally(old(asked), old(called), NO_TICK, tick)
      ensures PostsDecided(cfg, old(w), w, NO_TICK, tick, old(w).decider.posts, TodoAt(cfg, old(w)))
    {
      var read, spent, told := ReadTheAnswers();
      ghost var mid := asked;
      if read {
        tick := DecideOnRead(old(w), spent, told);
        TallyFrom(old(asked), mid, old(called), tick);
      } else {
        tick := LoseTick(old(w));
      }
    }

    /** The answers were read, the tick being under way since `from`. */
    method DecideOnRead(ghost from: World, spent: set<string>, told: set<string>) returns (tick: DecisionsTick)
      requires Inv(cfg, w) && w.decider.Seen? && Leads(cfg, from, w) && w.decider == from.decider && w.relay.answers == from.relay.answers
      requires spent == SpentOn(w.relay.answers, w.decider.posts) && told == ToldOn(w.relay.answers, w.decider.posts)
      modifies this
      ensures w.decider.Waiting? && Tally(old(asked), old(called), NO_TICK, tick)
      ensures PostsDecided(cfg, from, w, NO_TICK, tick, from.decider.posts, TodoAt(cfg, from))
    {
      ghost var v := w;
      tick := DecideOnWhatWasSeen(spent, told);
      DecidedAfter(cfg, from, v, w, NO_TICK, tick, v.decider.posts, TodoAt(cfg, v));
    }

    /** Or they could not be. */
    method LoseTick(ghost from: World) returns (tick: DecisionsTick)
      requires Inv(cfg, w) && w.decider.Seen? && Leads(cfg, from, w) && w.decider == from.decider && w.relay.answers == from.relay.answers
      modifies this`w
      ensures w.decider.Waiting? && tick == NO_TICK.(failures := 1)
      ensures PostsDecided(cfg, from, w, NO_TICK, tick, from.decider.posts, TodoAt(cfg, from))
    {
      ghost var v := w;
      GiveUp();
      tick := NO_TICK.(failures := 1);
      TickFailed(cfg, from, v, w, from.decider.posts, TodoAt(cfg, from));
    }

    method GiveUp()
      requires Inv(cfg, w) && w.decider.Seen?
      modifies this`w
      ensures Leads(cfg, old(w), w) && w == old(w).(decider := Waiting)
    {
      Take(GiveUpTick);
    }

    /** The open posts, then the expired ones. */
    method DecideOnWhatWasSeen(spent: set<string>, told: set<string>) returns (tick: DecisionsTick)
      requires Inv(cfg, w) && w.decider.Seen?
      requires spent == SpentOn(w.relay.answers, w.decider.posts) && told == ToldOn(w.relay.answers, w.decider.posts)
      modifies this
      ensures w.decider.Waiting?
      ensures Tally(old(asked), old(called), NO_TICK, tick)
      ensures PostsDecided(cfg, old(w), w, NO_TICK, tick, old(w).decider.posts, TodoAt(cfg, old(w)))
    {
      var Seen(at, posts, seen) := w.decider;
      Take(ReadAnswers);
      ghost var v := w;
      PartsAreWritten(cfg, at, posts, w);
      tick := DecideOnParts(at, posts, seen, spent, told);
      DecidedAfter(cfg, old(w), v, w, NO_TICK, tick, posts, TodoAt(cfg, old(w)));
    }

    method DecideOnParts(at: I64, posts: seq<Post>, seen: seq<Event>, spent: set<string>, told: set<string>) returns (tick: DecisionsTick)
      requires Inv(cfg, w) && w.decider == Resume(seen, spent, Todo(cfg, at, posts, seen, spent, told))
      requires WereWritten(Part(cfg, at, posts, false), w) && WereWritten(Part(cfg, at, posts, true), w)
      modifies this
      ensures w.decider.Waiting?
      ensures Tally(old(asked), old(called), NO_TICK, tick)
      ensures PostsDecided(cfg, old(w), w, NO_TICK, tick, posts, Todo(cfg, at, posts, seen, spent, told))
    {
      var open, expired := Part(cfg, at, posts, false), Part(cfg, at, posts, true);
      ghost var now, later := Plan(cfg, false, open, seen, spent, told), Plan(cfg, true, expired, seen, spent, told);
      tick := DecideOnAll(NO_TICK, false, open, seen, spent, told, later);
      ghost var v, b, mid, midCall := w, tick, asked, called;
      GoneStaysGone(cfg, old(w), v);
      tick := DecideOnExpired(tick, expired, seen, spent, told);
      TallyOn(old(asked), old(called), mid, midCall, NO_TICK, b, tick);
      PlanIsOnItsPosts(cfg, false, open, seen, spent, told);
      OpenThenExpired(cfg, old(w), v, w, NO_TICK, b, tick, at, posts, now, later);
    }

    method DecideOnExpired(tick: DecisionsTick, expired: seq<Post>, seen: seq<Event>, spent: set<string>, told: set<string>) returns (t: DecisionsTick)
      requires Inv(cfg, w) && WereWritten(expired, w) && w.decider == Resume(seen, spent, Plan(cfg, true, expired, seen, spent, told))
      modifies this
      ensures w.decider.Waiting?
      ensures Tally(old(asked), old(called), tick, t)
      ensures PostsDecided(cfg, old(w), w, tick, t, expired, Plan(cfg, true, expired, seen, spent, told))
    {
      assert Plan(cfg, true, expired, seen, spent, told) + [] == Plan(cfg, true, expired, seen, spent, told);
      t := DecideOnAll(tick, true, expired, seen, spent, told, []);
    }
  }
}

/** Quiescence: how often the decisions loop and the sweep do anything at all, over every
    run. */
module Quiescence {
  import opened Strings
  import opened Thread
  import opened Protocol
  import opened Safety
  import opened Guarantees
  import opened Histories

  // ---------------------------------------------------------------- what has been done

  /** The posts written and gone. */
  function Gone(r: RelayState): set<Post> {
    set p | p in r.everPosts && p.id !in r.posts
  }

  /** How much has been done to the relay for good: answers written, posts gone. */
  function Done(r: RelayState): nat {
    |r.answers| + |Gone(r)|
  }

  lemma Smaller<T>(a: set<T>, b: set<T>)
    requires a <= b
    ensures |a| <= |b|
    ensures a != b ==> |a| < |b|
  {
    var rest := b - a;
    assert b == a + rest;
    assert |b| == |a| + |rest|;
    if a != b {
      assert exists x :: x in b && x !in a;
    }
  }

  lemma DoneStays(w: World, v: World)
    requires Onwards(w, v)
    ensures Gone(w.relay) <= Gone(v.relay) && Done(w.relay) <= Done(v.relay)
  {
    Smaller(Gone(w.relay), Gone(v.relay));
  }

  lemma OneMoreGone(cfg: Config, w: World, r: RelayState, id: string)
    requires Inv(cfg, w) && r == w.relay.(posts := w.relay.posts - {id}) && r != w.relay
    ensures Done(r) > Done(w.relay)
  {
    assert id !in w.relay.posts ==> w.relay.posts - {id} == w.relay.posts;
    var p := w.relay.posts[id];
    assert p in Gone(r) && p !in Gone(w.relay);
    Smaller(Gone(w.relay), Gone(r));
  }

  // ---------------------------------------------------------------- each step

  /** A step of the loop or of the sweep that changes the relay. */
  predicate Acts(cfg: Config, w: World, s: Step) {
    (DeciderCan(cfg, w, s) || SweeperCan(w, s)) && Do(cfg, w, s).relay != w.relay
  }

  lemma ActingIsDone(cfg: Config, w: World, s: Step)
    requires Inv(cfg, w) && Acts(cfg, w, s)
    ensures Done(Do(cfg, w, s).relay) > Done(w.relay)
  {
    var r := Do(cfg, w, s).relay;
    if SweeperCan(w, s) {
      OneMoreGone(cfg, w, r, w.sweeper.todo[0].id);
    } else {
      LoopChanges(cfg, w, s);
      var item := Pending(w.decider)[0];
      if r.answers == w.relay.answers {
        OneMoreGone(cfg, w, r, item.post.id);
      }
    }
  }

  /** No step of anybody's undoes anything, and each one of the loop and of the sweep that
      changes the relay does one thing more. */
  lemma DoneGrows(cfg: Config, w: World, s: Step)
    requires Inv(cfg, w) && Can(cfg, w, s)
    ensures Done(Do(cfg, w, s).relay) >= Done(w.relay) + (if Acts(cfg, w, s) then 1 else 0)
  {
    if Acts(cfg, w, s) {
      ActingIsDone(cfg, w, s);
    } else {
      StepGoesOn(cfg, w, s);
      DoneStays(w, Do(cfg, w, s));
    }
  }

  // ---------------------------------------------------------------- every run

  /** How many steps of the loop and of the sweep changed the relay. */
  function Changes(cfg: Config, w: World, steps: seq<Step>): nat {
    if steps == [] then 0
    else
      var init := steps[..|steps| - 1];
      Changes(cfg, w, init) +
      match Run(cfg, w, init)
      case Some(u) => if Can(cfg, u, steps[|steps| - 1]) && Acts(cfg, u, steps[|steps| - 1]) then 1 else 0
      case None => 0
  }

  lemma {:induction false} ChangesAreDone(cfg: Config, w: World, steps: seq<Step>, v: World)
    requires Inv(cfg, w) && Run(cfg, w, steps) == Some(v)
    ensures Inv(cfg, v) && Changes(cfg, w, steps) + Done(w.relay) <= Done(v.relay)
    decreases |steps|
  {
    if steps == [] {
    } else {
      var init, last := steps[..|steps| - 1], steps[|steps| - 1];
      var u := Run(cfg, w, init).value;
      ChangesAreDone(cfg, w, init, u);
      DoneGrows(cfg, u, last);
      StepKeeps(cfg, u, last);
    }
  }

  // ---------------------------------------------------------------- how much there is to do

  function GesturesAnswered(answers: seq<Answer>, spending: bool): set<string> {
    if answers == [] then {}
    else
      var last := answers[|answers| - 1];
      GesturesAnswered(answers[..|answers| - 1], spending) + (if last.Spends() == spending then {last.gesture} else {})
  }

  lemma {:induction false} AnsweredIs(answers: seq<Answer>, spending: bool, g: string)
    ensures g in GesturesAnswered(answers, spending) <==>
      exists i :: 0 <= i < |answers| && answers[i].gesture == g && answers[i].Spends() == spending
  {
    if answers == [] {
    } else {
      var init := answers[..|answers| - 1];
      AnsweredIs(init, spending, g);
      assert forall i :: 0 <= i < |init| ==> init[i] == answers[i];
    }
  }

  /** A gesture is answered twice at most: once "revoked", once for good. */
  lemma {:induction false} AnswersAreFew(answers: seq<Answer>)
    requires AnswersOk(answers)
    ensures |answers| == |GesturesAnswered(answers, true)| + |GesturesAnswered(answers, false)|
  {
    if answers == [] {
    } else {
      var init, last := answers[..|answers| - 1], answers[|answers| - 1];
      assert forall i :: 0 <= i < |init| ==> init[i] == answers[i];
      AnswersAreFew(init);
      AnsweredIs(init, last.Spends(), last.gesture);
    }
  }

  lemma AnswersAreToGestures(cfg: Config, w: World, spending: bool)
    requires Inv(cfg, w)
    ensures GesturesAnswered(w.relay.answers, spending) <= GestureIds(w.relay.everGestures)
  {
    forall g | g in GesturesAnswered(w.relay.answers, spending)
      ensures g in GestureIds(w.relay.everGestures)
    {
      AnsweredIs(w.relay.answers, spending, g);
      var i :| 0 <= i < |w.relay.answers| && w.relay.answers[i].gesture == g && w.relay.answers[i].Spends() == spending;
      assert Rooted(w.relay.answers[i], w.relay.everGestures);
    }
  }

  lemma DoneIsBounded(cfg: Config, w: World)
    requires Inv(cfg, w)
    ensures Done(w.relay) <= 2 * |GestureIds(w.relay.everGestures)| + |w.relay.everPosts|
  {
    AnswersAreFew(w.relay.answers);
    AnswersAreToGestures(cfg, w, true);
    AnswersAreToGestures(cfg, w, false);
    Smaller(GesturesAnswered(w.relay.answers, true), GestureIds(w.relay.everGestures));
    Smaller(GesturesAnswered(w.relay.answers, false), GestureIds(w.relay.everGestures));
    Smaller(Gone(w.relay), w.relay.everPosts);
  }

  /** A step that makes a gesture or writes a post. */
  predicate Feeds(s: Step) {
    s.GestureMade? || (s.WritePost? && s.took)
  }

  lemma {:induction false} FixedSupply(cfg: Config, w: World, v: World, steps: seq<Step>)
    requires Run(cfg, w, steps) == Some(v) && forall s :: s in steps ==> !Feeds(s)
    ensures v.relay.everGestures == w.relay.everGestures && v.relay.everPosts == w.relay.everPosts
    decreases |steps|
  {
    if steps == [] {
    } else {
      var init, last := steps[..|steps| - 1], steps[|steps| - 1];
      assert steps == init + [last];
      FixedSupply(cfg, w, Run(cfg, w, init).value, init);
      SupplyStays(cfg, Run(cfg, w, init).value, last);
    }
  }

  lemma LoopSupplies(cfg: Config, w: World, s: Step)
    requires DeciderCan(cfg, w, s)
    ensures DeciderDoes(cfg, w, s).relay.everGestures == w.relay.everGestures
    ensures DeciderDoes(cfg, w, s).relay.everPosts == w.relay.everPosts
  {
  }

  lemma OthersSupply(cfg: Config, w: World, s: Step)
    requires Can(cfg, w, s) && !DeciderCan(cfg, w, s) && !Feeds(s)
    ensures Do(cfg, w, s).relay.everGestures == w.relay.everGestures
    ensures Do(cfg, w, s).relay.everPosts == w.relay.everPosts
  {
  }

  lemma SupplyStays(cfg: Config, w: World, s: Step)
    requires Can(cfg, w, s) && !Feeds(s)
    ensures Do(cfg, w, s).relay.everGestures == w.relay.everGestures
    ensures Do(cfg, w, s).relay.everPosts == w.relay.everPosts
  {
    if DeciderCan(cfg, w, s) {
      LoopSupplies(cfg, w, s);
    } else {
      OthersSupply(cfg, w, s);
    }
  }

  /** Quiescence: however long a run is and whatever else happens in it, crashes, time, the
      screen and moderators included, the loop and the sweep change the relay no more often
      than twice a gesture and once a post there have ever been; and with no new gesture
      and no new post, no more often than is left to do from the start. */
  lemma LoopsFallQuiet(cfg: Config, w: World, v: World, steps: seq<Step>)
    requires Reachable(cfg, w) && Run(cfg, w, steps) == Some(v)
    ensures Changes(cfg, w, steps) + Done(w.relay) <= 2 * |GestureIds(v.relay.everGestures)| + |v.relay.everPosts|
    ensures (forall s :: s in steps ==> !Feeds(s)) ==>
      Changes(cfg, w, steps) + Done(w.relay) <= 2 * |GestureIds(w.relay.everGestures)| + |w.relay.everPosts|
  {
    ReachableKeeps(cfg, w);
    ChangesAreDone(cfg, w, steps, v);
    DoneIsBounded(cfg, v);
    if forall s :: s in steps ==> !Feeds(s) {
      FixedSupply(cfg, w, v, steps);
    }
  }
}

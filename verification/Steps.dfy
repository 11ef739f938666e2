/** Runs of any machine, step by step from their end. */
module Steps {
  import opened Strings

  /** `run` takes the steps one after the other, and stops where one cannot be taken. */
  ghost predicate Runs<W(!new), S(!new)>(run: (W, seq<S>) -> Option<W>, next: (W, S) -> Option<W>) {
    && (forall w :: run(w, []) == Some(w))
    && forall w, steps, s {:trigger run(w, steps + [s])} :: run(w, steps + [s]) == Then(run(w, steps), next, s)
  }

  function Then<W, S>(w: Option<W>, next: (W, S) -> Option<W>, s: S): Option<W> {
    match w
    case None => None
    case Some(v) => next(v, s)
  }

  /** One run after another is one run. */
  lemma {:induction false} RunsJoin<W(!new), S(!new)>(
      run: (W, seq<S>) -> Option<W>, next: (W, S) -> Option<W>, w: W, v: W, steps: seq<S>, more: seq<S>)
    requires Runs(run, next) && run(w, steps) == Some(v)
    ensures run(w, steps + more) == run(v, more)
    decreases |more|
  {
    if more == [] {
      assert steps + more == steps;
    } else {
      var init, last := more[..|more| - 1], more[|more| - 1];
      RunsJoin(run, next, w, v, steps, init);
      assert more == init + [last];
      assert steps + more == (steps + init) + [last];
    }
  }
}

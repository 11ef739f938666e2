/** The Companion Gateway's side of an approval, and the bus behind it: any number of runs of
    the approval at once, each going on one write at a time, or never again. */
module Gateways {
  import opened Strings
  import opened Carry

  // ---------------------------------------------------------------- the Gateway and the bus

  /** What the Gateway recorded of an approval: before its reply is known to be on the bus,
      or after. */
  datatype Row = Unpublished | Published

  /** How far a run got: it asked the row, found the approval published, or found it is not
      and recorded it, had the reply put on the bus, marked the row. */
  datatype Phase = Arrived | Found | Passed | Noted | Out | Marked

  /** One run of the approval. `over`: it answered, and goes no further. */
  datatype ApprovalRun = ApprovalRun(suggestion: string, phase: Phase, over: bool)

  datatype GatewayState = GatewayState(
    rows: map<string, Row>,
    runs: seq<ApprovalRun>,
    sent: seq<string>,             // the replies on the bus, by suggestion
    remembered: set<string>,       // the replies the bus still recognises as duplicates
    forgets: seq<string>)          // those it recognised and then no longer

  function RowOf(g: GatewayState, id: string): Option<Row> {
    if id in g.rows then Some(g.rows[id]) else None
  }

  function Arrive(g: GatewayState, id: string): GatewayState {
    g.(runs := g.runs + [ApprovalRun(id, Arrived, false)])
  }

  predicate CanGoOn(g: GatewayState, k: nat) {
    k < |g.runs| && !g.runs[k].over && !g.runs[k].phase.Found? && !g.runs[k].phase.Marked?
  }

  function To(g: GatewayState, k: nat, phase: Phase): GatewayState
    requires k < |g.runs|
  {
    g.(runs := g.runs[k := g.runs[k].(phase := phase)])
  }

  /** The next thing run `k` does. The row is written once; the reply goes on the bus unless
      the bus recognises its id. */
  function GoOn(g: GatewayState, k: nat): GatewayState
    requires CanGoOn(g, k)
  {
    var id := g.runs[k].suggestion;
    match g.runs[k].phase
    case Arrived => To(g, k, if RowOf(g, id) == Some(Published) then Found else Passed)
    case Passed => To(if id in g.rows then g else g.(rows := g.rows[id := Unpublished]), k, Noted)
    case Noted => To(Publish(g, id), k, Out)
    case Out => To(g.(rows := g.rows[id := Published]), k, Marked)
  }

  function Publish(g: GatewayState, id: string): GatewayState {
    if id in g.remembered then g
    else g.(sent := g.sent + [id], remembered := g.remembered + {id})
  }

  function Forget(g: GatewayState, id: string): GatewayState {
    if id in g.remembered then g.(remembered := g.remembered - {id}, forgets := g.forgets + [id]) else g
  }

  function Close(g: GatewayState, k: nat): GatewayState
    requires k < |g.runs|
  {
    g.(runs := g.runs[k := g.runs[k].(over := true)])
  }

  /** What a run may answer, given how far it got; `NoUsableAnswer` is an answer that never
      arrived. An answer that names an approval is true. */
  predicate Truthful(phase: Phase, answer: GatewayAnswer) {
    match answer
    case Approved(already) => if already then phase.Found? else phase.Marked?
    case Refused(SentUnrecorded) => phase.Out?
    case Refused(Final) => phase.Arrived? || phase.Passed?
    case Refused(TryAgain) => !phase.Found? && !phase.Marked?
    case Unauthenticated => phase.Arrived?
    case NoUsableAnswer => true
  }

  // ---------------------------------------------------------------- counting replies

  function Count(ids: seq<string>, id: string): nat {
    if ids == [] then 0 else Count(ids[..|ids| - 1], id) + (if ids[|ids| - 1] == id then 1 else 0)
  }

  lemma CountPush(ids: seq<string>, added: string, id: string)
    ensures Count(ids + [added], id) == Count(ids, id) + (if added == id then 1 else 0)
  {
    assert (ids + [added])[..|ids|] == ids;
  }

  lemma {:induction false} CountedIsIn(ids: seq<string>, id: string)
    ensures Count(ids, id) >= 1 <==> id in ids
  {
    if ids == [] {
    } else {
      CountedIsIn(ids[..|ids| - 1], id);
      assert ids == ids[..|ids| - 1] + [ids[|ids| - 1]];
    }
  }

  // ---------------------------------------------------------------- what every step keeps

  /** A reply is on the bus once for each time the bus forgot it, and once more if the bus
      recognises it. */
  predicate Exact(g: GatewayState, id: string) {
    Count(g.sent, id) == Count(g.forgets, id) + (if id in g.remembered then 1 else 0)
  }

  /** Some run had the reply put on the bus. */
  predicate ReachedTheBus(g: GatewayState, id: string) {
    exists k :: 0 <= k < |g.runs| && g.runs[k].suggestion == id && WasOut(g.runs[k].phase)
  }

  predicate WasOut(phase: Phase) {
    phase.Out? || phase.Marked?
  }

  /** What a run says of the row and of the bus. */
  predicate RunOk(g: GatewayState, run: ApprovalRun) {
    && (run.phase.Noted? || WasOut(run.phase) ==> run.suggestion in g.rows)
    && (run.phase.Found? || run.phase.Marked? ==> RowOf(g, run.suggestion) == Some(Published))
    && (WasOut(run.phase) ==> Count(g.sent, run.suggestion) >= 1)
  }

  ghost predicate RunsOk(g: GatewayState) {
    forall k :: 0 <= k < |g.runs| ==> RunOk(g, g.runs[k])
  }

  predicate ReplyOk(g: GatewayState, id: string) {
    && Exact(g, id)
    && (RowOf(g, id) == Some(Published) ==> Count(g.sent, id) >= 1)
    && (Count(g.sent, id) >= 1 ==> ReachedTheBus(g, id))
  }

  ghost predicate GatewayOk(g: GatewayState) {
    RunsOk(g) && forall id :: ReplyOk(g, id)
  }

  /** Nothing is taken back at the Gateway or off the bus. */
  ghost predicate GatewayGrows(g: GatewayState, h: GatewayState) {
    && g.rows.Keys <= h.rows.Keys
    && (forall id :: Count(g.sent, id) <= Count(h.sent, id))
    && |g.runs| <= |h.runs| && forall k :: 0 <= k < |g.runs| ==> h.runs[k].suggestion == g.runs[k].suggestion
  }

  lemma ArrivingKeeps(g: GatewayState, id: string)
    requires GatewayOk(g)
    ensures GatewayOk(Arrive(g, id)) && GatewayGrows(g, Arrive(g, id))
  {
    var h := Arrive(g, id);
    forall i
      ensures ReplyOk(h, i)
    {
      assert ReplyOk(g, i);
      if ReachedTheBus(g, i) {
        var k :| 0 <= k < |g.runs| && g.runs[k].suggestion == i && WasOut(g.runs[k].phase);
        assert h.runs[k] == g.runs[k];
      }
    }
  }

  lemma ClosingKeeps(g: GatewayState, k: nat)
    requires GatewayOk(g) && k < |g.runs|
    ensures GatewayOk(Close(g, k)) && GatewayGrows(g, Close(g, k))
  {
    var h := Close(g, k);
    forall i
      ensures ReplyOk(h, i)
    {
      assert ReplyOk(g, i);
      if ReachedTheBus(g, i) {
        var n :| 0 <= n < |g.runs| && g.runs[n].suggestion == i && WasOut(g.runs[n].phase);
        assert h.runs[n].suggestion == i && WasOut(h.runs[n].phase);
      }
    }
  }

  lemma PublishCounts(g: GatewayState, id: string, i: string)
    requires Exact(g, i)
    ensures Exact(Publish(g, id), i)
    ensures Count(Publish(g, id).sent, i) == Count(g.sent, i) + (if i == id && id !in g.remembered then 1 else 0)
    ensures i == id ==> Count(Publish(g, id).sent, i) >= 1
  {
    CountPush(g.sent, id, i);
  }

  /** What one step of a run makes of one reply's count. */
  lemma StepCounts(g: GatewayState, k: nat, i: string)
    requires CanGoOn(g, k) && Exact(g, i) && Exact(g, g.runs[k].suggestion)
    ensures var h, id := GoOn(g, k), g.runs[k].suggestion;
      && Exact(h, i)
      && Count(h.sent, i) == Count(g.sent, i) + (if i == id && g.runs[k].phase.Noted? && id !in g.remembered then 1 else 0)
      && (g.runs[k].phase.Noted? ==> Count(h.sent, id) >= 1)
  {
    var id := g.runs[k].suggestion;
    if g.runs[k].phase.Noted? {
      PublishCounts(g, id, i);
      PublishCounts(g, id, id);
      assert GoOn(g, k) == To(Publish(g, id), k, Out);
    } else {
      assert GoOn(g, k).sent == g.sent && GoOn(g, k).remembered == g.remembered && GoOn(g, k).forgets == g.forgets;
    }
  }

  lemma StepKeepsReached(g: GatewayState, k: nat, i: string)
    requires CanGoOn(g, k) && ReachedTheBus(g, i)
    ensures ReachedTheBus(GoOn(g, k), i)
  {
    var h := GoOn(g, k);
    var n :| 0 <= n < |g.runs| && g.runs[n].suggestion == i && WasOut(g.runs[n].phase);
    assert h.runs[n].suggestion == i && WasOut(h.runs[n].phase);
  }

  lemma StepKeepsReply(g: GatewayState, k: nat, i: string)
    requires GatewayOk(g) && CanGoOn(g, k)
    ensures ReplyOk(GoOn(g, k), i) && Count(g.sent, i) <= Count(GoOn(g, k).sent, i)
  {
    var h, id := GoOn(g, k), g.runs[k].suggestion;
    assert ReplyOk(g, i) && ReplyOk(g, id) && RunOk(g, g.runs[k]);
    StepCounts(g, k, i);
    if ReachedTheBus(g, i) {
      StepKeepsReached(g, k, i);
    }
    if i == id && g.runs[k].phase.Noted? {
      assert h.runs[k].suggestion == i && WasOut(h.runs[k].phase);
    }
  }

  lemma StepKeepsRun(g: GatewayState, k: nat, n: nat)
    requires GatewayOk(g) && CanGoOn(g, k) && n < |g.runs|
    ensures RunOk(GoOn(g, k), GoOn(g, k).runs[n])
  {
    var h := GoOn(g, k);
    assert RunOk(g, g.runs[n]) && RunOk(g, g.runs[k]);
    assert ReplyOk(g, g.runs[n].suggestion) && ReplyOk(g, g.runs[k].suggestion);
    StepCounts(g, k, g.runs[n].suggestion);
  }

  /** Whoever's run goes on, and however far the others are. */
  lemma GoingOnKeeps(g: GatewayState, k: nat)
    requires GatewayOk(g) && CanGoOn(g, k)
    ensures GatewayOk(GoOn(g, k)) && GatewayGrows(g, GoOn(g, k))
  {
    forall i
      ensures ReplyOk(GoOn(g, k), i) && Count(g.sent, i) <= Count(GoOn(g, k).sent, i)
    {
      StepKeepsReply(g, k, i);
    }
    forall n: nat | n < |g.runs|
      ensures RunOk(GoOn(g, k), GoOn(g, k).runs[n])
    {
      StepKeepsRun(g, k, n);
    }
  }

  lemma ForgettingKeepsReply(g: GatewayState, id: string, i: string)
    requires ReplyOk(g, i)
    ensures ReplyOk(Forget(g, id), i)
  {
    SameRunsReach(g, Forget(g, id), i);
    ForgettingIsExact(g, id, i);
  }

  lemma SameRunsReach(g: GatewayState, h: GatewayState, i: string)
    requires h.runs == g.runs
    ensures ReachedTheBus(h, i) <==> ReachedTheBus(g, i)
  {
  }

  lemma ForgettingIsExact(g: GatewayState, id: string, i: string)
    requires Exact(g, i)
    ensures Exact(Forget(g, id), i)
  {
    CountPush(g.forgets, id, i);
  }

  lemma ForgettingKeeps(g: GatewayState, id: string)
    requires GatewayOk(g)
    ensures GatewayOk(Forget(g, id)) && GatewayGrows(g, Forget(g, id))
  {
    forall i
      ensures ReplyOk(Forget(g, id), i)
    {
      assert ReplyOk(g, i);
      ForgettingKeepsReply(g, id, i);
    }
    forall k | 0 <= k < |g.runs|
      ensures RunOk(Forget(g, id), g.runs[k])
    {
      assert RunOk(g, g.runs[k]);
    }
  }

  /** The Gateway's word that an approval exists is its word that the reply is out. */
  lemma AnswerMeansSent(g: GatewayState, k: nat, answer: GatewayAnswer, told: bool, near: bool)
    requires GatewayOk(g) && k < |g.runs| && Truthful(g.runs[k].phase, answer)
    requires AfterGateway(answer, told, near).DeletePost?
    ensures Count(g.sent, g.runs[k].suggestion) >= 1
  {
    assert RunOk(g, g.runs[k]) && ReplyOk(g, g.runs[k].suggestion);
  }
}

/** The clerk's answers in a post's thread, and how it reads back which gestures it
    has already answered. */
module Thread {
  import opened Strings
  import opened Relay

  /** The two languages the clerk's own sentences exist in. */
  datatype Lang = Fr | En

  /** What an answer says. */
  datatype Reply = NotTheOwner | Refused | NotRecorded | Revoked | Expired

  /** How each sentence starts, as far as is needed to tell it from the others. */
  function Head(l: Lang, r: Reply): string {
    match r
    case NotTheOwner => if l.Fr? then "Seul le" else "Only the"
    case Refused => if l.Fr? then "Non env" else "Not sen"
    case NotRecorded => if l.Fr? then "Non enregistrée — le" else "Not recorded — the C"
    case Revoked => if l.Fr? then "Non enregistrée — l’" else "Not recorded — the “"
    case Expired => if l.Fr? then "Non env" else "Not sen"
  }

  /** How each sentence goes on; for a refusal, with the Companion's words for its code. */
  type Tails = (Lang, Reply) -> string

  function Text(tails: Tails, l: Lang, r: Reply): string {
    Head(l, r) + tails(l, r)
  }

  /** The one answer that does not spend the gesture, in either language. */
  predicate SaysRevoked(tails: Tails, content: string) {
    content == Text(tails, Fr, Revoked) || content == Text(tails, En, Revoked)
  }

  lemma HeadsDiffer(l: Lang, r: Reply, k: Lang)
    requires !r.Revoked?
    ensures exists i :: 0 <= i < |Head(l, r)| && i < |Head(k, Revoked)| && Head(l, r)[i] != Head(k, Revoked)[i]
  {
    var a, b := Head(l, r), Head(k, Revoked);
    if r.NotTheOwner? {
      assert a[0] != b[0];
    } else if l != k {
      assert a[2] != b[2];
    } else if r.NotRecorded? {
      assert a[19] != b[19];
    } else {
      assert a[6] != b[6] || a[4] != b[4];
    }
  }

  /** Whatever language an answer was written in, and however its sentence goes on, it
      is read as "revoked" exactly when it was. */
  lemma RevokedIsRecognised(tails: Tails, l: Lang, r: Reply)
    ensures SaysRevoked(tails, Text(tails, l, r)) <==> r.Revoked?
  {
    if !r.Revoked? {
      forall k: Lang
        ensures Text(tails, l, r) != Text(tails, k, Revoked)
      {
        HeadsDiffer(l, r, k);
        var i :| 0 <= i < |Head(l, r)| && i < |Head(k, Revoked)| && Head(l, r)[i] != Head(k, Revoked)[i];
        assert Text(tails, l, r)[i] == Head(l, r)[i];
        assert Text(tails, k, Revoked)[i] == Head(k, Revoked)[i];
      }
    }
  }

  // ---------------------------------------------------------------- the relay as memory

  /** One answer: which gesture it answers, and what it says. */
  datatype Answer = Answer(post: string, gesture: string, reply: Reply) {
    predicate Spends() {
      !reply.Revoked?
    }
  }

  predicate IsSpent(answers: seq<Answer>, gesture: string) {
    exists i :: 0 <= i < |answers| && answers[i].gesture == gesture && answers[i].Spends()
  }

  predicate IsToldRevoked(answers: seq<Answer>, gesture: string) {
    exists i :: 0 <= i < |answers| && answers[i].gesture == gesture && !answers[i].Spends()
  }

  /** The gestures the answers on the relay spend, and those only told "revoked". */
  method AnsweredGestures(tails: Tails, answers: seq<Event>) returns (spent: set<string>, toldRevoked: set<string>)
    ensures forall g :: g in spent <==>
      exists i :: 0 <= i < |answers| && AnsweredGesture(answers[i]) == Some(g) && !SaysRevoked(tails, answers[i].content)
    ensures forall g :: g in toldRevoked <==>
      exists i :: 0 <= i < |answers| && AnsweredGesture(answers[i]) == Some(g) && SaysRevoked(tails, answers[i].content)
  {
    spent, toldRevoked := {}, {};
    for k := 0 to |answers|
      invariant forall g :: g in spent <==>
        exists i :: 0 <= i < k && AnsweredGesture(answers[i]) == Some(g) && !SaysRevoked(tails, answers[i].content)
      invariant forall g :: g in toldRevoked <==>
        exists i :: 0 <= i < k && AnsweredGesture(answers[i]) == Some(g) && SaysRevoked(tails, answers[i].content)
    {
      var gesture := AnsweredGesture(answers[k]);
      if gesture.None? {
        continue;
      }
      if SaysRevoked(tails, answers[k].content) {
        toldRevoked := toldRevoked + {gesture.value};
      } else {
        spent := spent + {gesture.value};
      }
    }
  }

  /** An event that carries an answer of the clerk's, in some language. */
  predicate Carries(tails: Tails, e: Event, a: Answer, channel: string) {
    && e.kind == KIND_FORUM_COMMENT
    && e.tags == CommentTags(channel, a.post, a.gesture)
    && (e.content == Text(tails, Fr, a.reply) || e.content == Text(tails, En, a.reply))
  }

  /** Read back off the relay, an answer names its gesture and says whether it spent it. */
  lemma AnswerReadsBack(tails: Tails, e: Event, a: Answer, channel: string)
    requires Carries(tails, e, a, channel) && a.gesture != ""
    ensures AnsweredGesture(e) == Some(a.gesture)
    ensures SaysRevoked(tails, e.content) <==> !a.Spends()
  {
    CommentReadsBack(e, channel, a.post, a.gesture);
    RevokedIsRecognised(tails, Fr, a.reply);
    RevokedIsRecognised(tails, En, a.reply);
  }
}

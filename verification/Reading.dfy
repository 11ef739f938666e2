/** What the loop's two queries bring back is what the relay holds: the gestures on the
    posts asked about, and the gestures already answered in their threads. */
module Reading {
  import opened Strings
  import opened Relay
  import opened Thread
  import opened Protocol

  function PostIds(posts: seq<Post>): (ids: seq<string>)
    ensures |ids| == |posts| && forall i :: 0 <= i < |ids| ==> ids[i] == posts[i].id
  {
    seq(|posts|, i requires 0 <= i < |posts| => posts[i].id)
  }

  /** One query a chunk, each unanswered or answered honestly off `held`. */
  ghost predicate HonestReplies(replies: seq<Served>, held: set<Event>, posts: seq<Post>) {
    && |replies| == |Chunks(PostIds(posts))|
    && forall i :: 0 <= i < |replies| && replies[i].Some? ==> Honest(replies[i].value, held, Chunks(PostIds(posts))[i])
  }

  /** What an answered round of queries amounts to, event by event. */
  lemma ServedIs(replies: seq<Served>, held: set<Event>, posts: seq<Post>, served: seq<Event>, e: Event)
    requires HonestReplies(replies, held, posts) && IdsAreHashes(held) && AllServed(replies)
    requires (forall f :: f in served ==> f in Believed(replies)) && forall f :: f in Believed(replies) ==> HasId(served, f.id)
    ensures e in served <==> e.genuine && e in held && Matches(e, PostIds(posts))
  {
    ChunkingIsInvisible(replies, held, PostIds(posts), e);
    if e in Believed(replies) {
      var k :| 0 <= k < |served| && served[k].id == e.id;
      ChunkingIsInvisible(replies, held, PostIds(posts), served[k]);
      assert served[k] == e;
    }
  }

  lemma TargetsMatch(e: Event, posts: seq<Post>, p: Post)
    requires Targets(e, p.id) && p in posts
    ensures Matches(e, PostIds(posts))
  {
    var tags := TagsNamed(e.tags, "e");
    TagsNamedAre(e.tags, "e", |tags| - 1);
    var i :| 0 <= i < |posts| && posts[i] == p;
    assert PostIds(posts)[i] == p.id;
  }

  lemma {:induction false} TagsNamedAre(tags: seq<Tag>, name: string, k: nat)
    requires k < |TagsNamed(tags, name)|
    ensures exists i :: 0 <= i < |tags| && tags[i] == TagsNamed(tags, name)[k] && |tags[i]| >= 2 && tags[i][0] == name
  {
    var first := if |tags[0]| >= 2 && tags[0][0] == name then 1 else 0;
    if k >= first {
      TagsNamedAre(tags[1..], name, k - first);
      var i :| 0 <= i < |tags[1..]| && tags[1..][i] == TagsNamed(tags[1..], name)[k - first]
        && |tags[1..][i]| >= 2 && tags[1..][i][0] == name;
      assert tags[i + 1] == tags[1..][i];
    }
  }

  // ---------------------------------------------------------------- the gestures

  /** The chunked query for the gestures on `posts`: it fails if one of its requests does,
      and otherwise serves what a tick of the protocol may read, the clerk's `own` comments
      among it. */
  method GesturesServed(ghost r: RelayState, ghost clerk: string, ghost own: set<Event>, ghost posts: seq<Post>, replies: seq<Served>)
      returns (served: Served)
    requires HonestReplies(replies, r.gestures + own, posts) && IdsAreHashes(r.gestures + own)
    requires forall e :: e in own ==> e.pubkey == clerk
    ensures served.Some? <==> AllServed(replies)
    ensures served.Some? ==> Serves(r, clerk, posts, served.value)
  {
    served := QueryEach(replies);
    if served.Some? {
      forall e | e in served.value
        ensures e.genuine && (e in r.gestures || e.pubkey == clerk)
      {
        ServedIs(replies, r.gestures + own, posts, served.value, e);
      }
      forall e, p | e in r.gestures && e.genuine && p in posts && Targets(e, p.id)
        ensures e in served.value
      {
        TargetsMatch(e, posts, p);
        ServedIs(replies, r.gestures + own, posts, served.value, e);
      }
    }
  }

  // ---------------------------------------------------------------- the answers already given

  /** The clerk's own comments on the relay, one for each of its answers. */
  ghost predicate OwnComments(tails: Tails, channel: string, own: seq<Event>, answers: seq<Answer>) {
    && |own| == |answers|
    && (forall i :: 0 <= i < |own| ==> own[i].genuine && answers[i].gesture != "" && Carries(tails, own[i], answers[i], channel))
    && IdsAreHashes(Held(own))
  }

  function Held(events: seq<Event>): set<Event> {
    set e | e in events
  }

  /** What one comment read back says: the gesture answered, and whether it was told
      "revoked". */
  type Reader = Event -> Option<(string, bool)>

  function ReaderFor(tails: Tails): Reader {
    (e: Event) =>
      match AnsweredGesture(e)
      case None => None
      case Some(g) => Some((g, SaysRevoked(tails, e.content)))
  }

  function AskedFor(posts: seq<Post>): Event -> bool {
    (e: Event) => Matches(e, PostIds(posts))
  }

  /** The comment reads as the answer, and is asked for when the answer is on `posts`. */
  predicate Tells(reader: Reader, asked: Event -> bool, e: Event, a: Answer, posts: seq<Post>) {
    reader(e) == Some((a.gesture, !a.Spends())) && (asked(e) <==> IsOneOf(posts, a.post))
  }

  lemma OnlyEntry(e: Event, channel: string, post: string, gesture: string)
    requires e.tags == CommentTags(channel, post, gesture)
    ensures forall i :: 0 <= i < |e.tags| && e.tags[i][0] == "e" ==> e.tags[i][1] == post
    ensures |e.tags| == 3 && |e.tags[1]| >= 2 && e.tags[1][0] == "e" && e.tags[1][1] == post
  {
    assert e.tags[0][0][0] == 'h' && e.tags[2][0][0] == 'r';
  }

  lemma MatchesItsPost(e: Event, channel: string, post: string, gesture: string, posts: seq<Post>)
    requires e.kind == KIND_FORUM_COMMENT && e.tags == CommentTags(channel, post, gesture)
    ensures Matches(e, PostIds(posts)) <==> IsOneOf(posts, post)
  {
    OnlyEntry(e, channel, post, gesture);
    if IsOneOf(posts, post) {
      var i :| 0 <= i < |posts| && posts[i].id == post;
      assert PostIds(posts)[i] == post;
    }
    if Matches(e, PostIds(posts)) {
      var k :| 0 <= k < |PostIds(posts)| && PostIds(posts)[k] == post;
      assert posts[k].id == post;
    }
  }

  lemma CommentTells(tails: Tails, channel: string, e: Event, a: Answer, posts: seq<Post>)
    requires Carries(tails, e, a, channel) && a.gesture != ""
    ensures Tells(ReaderFor(tails), AskedFor(posts), e, a, posts)
  {
    MatchesItsPost(e, channel, a.post, a.gesture, posts);
    AnswerReadsBack(tails, e, a, channel);
  }

  /** Each comment tells of its answer. */
  ghost predicate AllTold(reader: Reader, asked: Event -> bool, own: seq<Event>, answers: seq<Answer>, posts: seq<Post>) {
    |own| == |answers| && forall i :: 0 <= i < |own| ==> Tells(reader, asked, own[i], answers[i], posts)
  }

  lemma CommentsTell(tails: Tails, channel: string, own: seq<Event>, answers: seq<Answer>, posts: seq<Post>)
    requires OwnComments(tails, channel, own, answers)
    ensures AllTold(ReaderFor(tails), AskedFor(posts), own, answers, posts)
  {
    forall i | 0 <= i < |own|
      ensures Tells(ReaderFor(tails), AskedFor(posts), own[i], answers[i], posts)
    {
      CommentTells(tails, channel, own[i], answers[i], posts);
    }
  }

  predicate Among(reader: Reader, served: seq<Event>, g: string, revoked: bool) {
    exists k :: 0 <= k < |served| && reader(served[k]) == Some((g, revoked))
  }

  predicate AnsweredOn(answers: seq<Answer>, posts: seq<Post>, g: string, revoked: bool) {
    exists i :: 0 <= i < |answers| && AnswersOn(answers[i], posts, g, revoked)
  }

  predicate AnswersOn(a: Answer, posts: seq<Post>, g: string, revoked: bool) {
    IsOneOf(posts, a.post) && a.gesture == g && a.Spends() != revoked
  }

  lemma SetsOn(answers: seq<Answer>, posts: seq<Post>, g: string)
    ensures g in SpentOn(answers, posts) <==> AnsweredOn(answers, posts, g, false)
    ensures g in ToldOn(answers, posts) <==> AnsweredOn(answers, posts, g, true)
  {
    assert forall i, revoked :: 0 <= i < |answers| && AnswersOn(answers[i], posts, g, revoked) ==> answers[i].gesture == g;
  }

  /** What was served reads as exactly the answers in the threads of `posts`. */
  lemma ServedTells(
      reader: Reader, asked: Event -> bool, own: seq<Event>, answers: seq<Answer>, posts: seq<Post>, served: seq<Event>, g: string, revoked: bool)
    requires AllTold(reader, asked, own, answers, posts)
    requires forall e :: e in served <==> e in own && asked(e)
    ensures AnsweredOn(answers, posts, g, revoked) <==> Among(reader, served, g, revoked)
  {
    if Among(reader, served, g, revoked) {
      var k :| 0 <= k < |served| && reader(served[k]) == Some((g, revoked));
      assert served[k] in served && served[k] in own;
      var i :| 0 <= i < |own| && own[i] == served[k];
      assert Tells(reader, asked, own[i], answers[i], posts);
      assert AnswersOn(answers[i], posts, g, revoked);
    }
    if AnsweredOn(answers, posts, g, revoked) {
      var i :| 0 <= i < |answers| && AnswersOn(answers[i], posts, g, revoked);
      assert Tells(reader, asked, own[i], answers[i], posts);
      var k :| 0 <= k < |served| && served[k] == own[i];
    }
  }

  /** The two sets `AnsweredGestures` builds, in terms of its reader. */
  lemma SetsAreRead(tails: Tails, served: seq<Event>, g: string)
    ensures Among(ReaderFor(tails), served, g, false) <==>
      exists i :: 0 <= i < |served| && AnsweredGesture(served[i]) == Some(g) && !SaysRevoked(tails, served[i].content)
    ensures Among(ReaderFor(tails), served, g, true) <==>
      exists i :: 0 <= i < |served| && AnsweredGesture(served[i]) == Some(g) && SaysRevoked(tails, served[i].content)
  {
    forall i | 0 <= i < |served|
      ensures ReaderFor(tails)(served[i]) == Some((g, false)) <==>
        AnsweredGesture(served[i]) == Some(g) && !SaysRevoked(tails, served[i].content)
      ensures ReaderFor(tails)(served[i]) == Some((g, true)) <==>
        AnsweredGesture(served[i]) == Some(g) && SaysRevoked(tails, served[i].content)
    {
    }
  }

  method ReadBack(tails: Tails, served: seq<Event>) returns (spent: set<string>, told: set<string>)
    ensures forall g :: g in spent <==> Among(ReaderFor(tails), served, g, false)
    ensures forall g :: g in told <==> Among(ReaderFor(tails), served, g, true)
  {
    spent, told := AnsweredGestures(tails, served);
    forall g
      ensures g in spent <==> Among(ReaderFor(tails), served, g, false)
      ensures g in told <==> Among(ReaderFor(tails), served, g, true)
    {
      SetsAreRead(tails, served, g);
    }
  }

  /** The chunked query for the clerk's own comments on `posts`, read back: exactly the
      gestures its answers there spent, and those they told "revoked". */
  method AnswersServed(
      tails: Tails, ghost channel: string, ghost own: seq<Event>, ghost answers: seq<Answer>, ghost posts: seq<Post>, replies: seq<Served>)
      returns (read: bool, spent: set<string>, told: set<string>)
    requires OwnComments(tails, channel, own, answers) && HonestReplies(replies, Held(own), posts)
    ensures read <==> AllServed(replies)
    ensures read ==> spent == SpentOn(answers, posts) && told == ToldOn(answers, posts)
  {
    var served := QueryEach(replies);
    if served.None? {
      return false, {}, {};
    }
    read := true;
    spent, told := ReadBack(tails, served.value);
    ghost var reader, asked := ReaderFor(tails), AskedFor(posts);
    CommentsTell(tails, channel, own, answers, posts);
    forall e
      ensures e in served.value <==> e in own && asked(e)
    {
      ServedIs(replies, Held(own), posts, served.value, e);
    }
    forall g
      ensures g in spent <==> g in SpentOn(answers, posts)
      ensures g in told <==> g in ToldOn(answers, posts)
    {
      SetsOn(answers, posts, g);
      ServedTells(reader, asked, own, answers, posts, served.value, g, false);
      ServedTells(reader, asked, own, answers, posts, served.value, g, true);
    }
  }

  // ---------------------------------------------------------------- the relay's side

  /** What a relay that holds `held` answers to one filter. */
  method HonestReply(held: seq<Event>, ids: seq<string>) returns (answer: seq<Event>)
    ensures Honest(answer, Held(held), ids)
  {
    answer := [];
    for i := 0 to |held|
      invariant forall e :: e in answer <==> e in held[..i] && Matches(e, ids)
    {
      assert held[..i + 1] == held[..i] + [held[i]];
      if Matches(held[i], ids) {
        answer := answer + [held[i]];
      }
    }
    assert held[..|held|] == held;
  }

  /** And to a round of queries, every one of them if `answered`. */
  method RepliesOn(held: seq<Event>, posts: seq<Post>, answered: bool) returns (replies: seq<Served>)
    ensures HonestReplies(replies, Held(held), posts)
    ensures posts != [] ==> (AllServed(replies) <==> answered)
  {
    replies := [];
    var chunks := Chunks(PostIds(posts));
    assert posts != [] ==> PostIds(posts)[0] in PostIds(posts);
    for i := 0 to |chunks|
      invariant |replies| == i
      invariant forall k :: 0 <= k < i ==> (replies[k].Some? <==> answered)
      invariant forall k :: 0 <= k < i && replies[k].Some? ==> Honest(replies[k].value, Held(held), chunks[k])
    {
      if !answered {
        replies := replies + [None];
      } else {
        var answer := HonestReply(held, chunks[i]);
        replies := replies + [Some(answer)];
      }
    }
  }

  /** The comments that carry `answers`, as the relay would hold them. */
  function CommentsFor(tails: Tails, channel: string, clerk: string, answers: seq<Answer>): seq<Event> {
    seq(|answers|, i requires 0 <= i < |answers| =>
      Event(seq(i + 1, _ => 'x'), clerk, KIND_FORUM_COMMENT, CommentTags(channel, answers[i].post, answers[i].gesture),
        Text(tails, En, answers[i].reply), 0, true))
  }

  lemma CommentsAreOwn(tails: Tails, channel: string, clerk: string, answers: seq<Answer>)
    requires forall i :: 0 <= i < |answers| ==> answers[i].gesture != ""
    ensures OwnComments(tails, channel, CommentsFor(tails, channel, clerk, answers), answers)
  {
    var own := CommentsFor(tails, channel, clerk, answers);
    forall i | 0 <= i < |own|
      ensures own[i].genuine && |own[i].id| == i + 1 && Carries(tails, own[i], answers[i], channel)
    {
      CarriedInEnglish(tails, own[i], answers[i], channel);
    }
    IdsByLength(own);
  }

  lemma CarriedInEnglish(tails: Tails, e: Event, a: Answer, channel: string)
    requires e.kind == KIND_FORUM_COMMENT && e.tags == CommentTags(channel, a.post, a.gesture)
    requires e.content == Text(tails, En, a.reply)
    ensures Carries(tails, e, a, channel)
  {
  }

  lemma IdsByLength(own: seq<Event>)
    requires forall i :: 0 <= i < |own| ==> |own[i].id| == i + 1
    ensures IdsAreHashes(Held(own))
  {
    forall e, f | e in own && f in own && e.id == f.id
      ensures e == f
    {
      var i :| 0 <= i < |own| && own[i] == e;
      var j :| 0 <= j < |own| && own[j] == f;
      assert |own[i].id| == |own[j].id|;
    }
  }
}

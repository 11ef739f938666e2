/** What the clerk reads off the relay: events with their tags, which post an event
    is on, which gesture an answer answers, and how the answers to several queries
    become one list. */
module Relay {
  import opened Strings

  const KIND_REACTION := 7
  const KIND_FORUM_COMMENT := 45003

  const GESTURE_PREFIX := "twalk:gesture:"
  const EVENT_REFERENCE_PREFIX := "twalk:event:"
  const GESTURE_QUERY_IDS := 100

  type Tag = seq<string>

  /** `genuine` stands for `Event::verify`: the id is the event's hash and the
      signature is the `pubkey`'s. */
  datatype Event = Event(
    id: string, pubkey: string, kind: nat, tags: seq<Tag>, content: string, createdAt: nat, genuine: bool)

  // ---------------------------------------------------------------- tags

  /** The tags named `name` that have a value, in order. */
  function TagsNamed(tags: seq<Tag>, name: string): (r: seq<Tag>)
    ensures forall i :: 0 <= i < |r| ==> |r[i]| >= 2 && r[i] in tags
  {
    if tags == [] then []
    else
      (if |tags[0]| >= 2 && tags[0][0] == name then [tags[0]] else []) + TagsNamed(tags[1..], name)
  }

  /** The one post an event is on, if it is a gesture: the value of its last `e` tag. */
  function Target(e: Event): Option<string> {
    var tags := TagsNamed(e.tags, "e");
    if (e.kind == KIND_REACTION || e.kind == KIND_FORUM_COMMENT) && tags != []
    then Some(tags[|tags| - 1][1]) else None
  }

  predicate Targets(e: Event, post: string) {
    Target(e) == Some(post)
  }

  /** A thread reply with one `e` tag, on the post, marked `reply` or not marked. */
  predicate IsDirectReply(e: Event, post: string) {
    var tags := TagsNamed(e.tags, "e");
    && e.kind == KIND_FORUM_COMMENT
    && |tags| == 1
    && tags[0][1] == post
    && (|tags[0]| <= 3 || tags[0][3] == "" || tags[0][3] == "reply")
  }

  function FirstWithPrefix(tags: seq<Tag>, prefix: string): Option<string>
    requires forall i :: 0 <= i < |tags| ==> |tags[i]| >= 2
  {
    if tags == [] then None
    else
      var rest := StripPrefix(tags[0][1], prefix);
      if rest.Some? then rest else FirstWithPrefix(tags[1..], prefix)
  }

  /** The gesture a reply of the clerk's answers. */
  function AnsweredGesture(e: Event): Option<string> {
    var id := FirstWithPrefix(TagsNamed(e.tags, "r"), GESTURE_PREFIX);
    if id == Some("") then None else id
  }

  predicate ReferencesEvent(e: Event, busEventId: string) {
    exists i :: 0 <= i < |e.tags| && |e.tags[i]| >= 2 && e.tags[i][0] == "r"
      && e.tags[i][1] == EVENT_REFERENCE_PREFIX + busEventId
  }

  function CommentTags(channel: string, post: string, gesture: string): seq<Tag> {
    [["h", channel], ["e", post, "", "reply"], ["r", GESTURE_PREFIX + gesture]]
  }

  function LineTags(channel: string, busEventId: string): seq<Tag> {
    [["h", channel], ["r", EVENT_REFERENCE_PREFIX + busEventId]]
  }

  lemma OneTag(t: Tag, rest: seq<Tag>, name: string)
    ensures TagsNamed([t] + rest, name) == (if |t| >= 2 && t[0] == name then [t] else []) + TagsNamed(rest, name)
  {
    assert ([t] + rest)[1..] == rest;
  }

  /** Of three tags with different names, each name finds its own. */
  lemma NamedAmongThree(h: Tag, e: Tag, r: Tag)
    requires |h| >= 2 && |e| >= 2 && |r| >= 2
    requires h[0] == "h" && e[0] == "e" && r[0] == "r"
    ensures TagsNamed([h, e, r], "e") == [e] && TagsNamed([h, e, r], "r") == [r]
  {
    forall name
      ensures TagsNamed([h, e, r], name)
           == (if h[0] == name then [h] else []) + ((if e[0] == name then [e] else []) + (if r[0] == name then [r] else []))
    {
      assert [h, e, r] == [h] + [e, r] && [e, r] == [e] + [r] && [r] == [r] + [];
      OneTag(h, [e, r], name);
      OneTag(e, [r], name);
      OneTag(r, [], name);
    }
    assert "h"[0] != "e"[0] && "h"[0] != "r"[0] && "e"[0] != "r"[0];
  }

  /** The relay as memory of the answers: a reply written for a gesture on a post is a
      direct reply there, and names that gesture and no other. */
  lemma CommentReadsBack(e: Event, channel: string, post: string, gesture: string)
    requires e.kind == KIND_FORUM_COMMENT && e.tags == CommentTags(channel, post, gesture)
    requires gesture != ""
    ensures AnsweredGesture(e) == Some(gesture)
    ensures Targets(e, post) && IsDirectReply(e, post)
  {
    NamedAmongThree(e.tags[0], e.tags[1], e.tags[2]);
    assert e.tags == [e.tags[0], e.tags[1], e.tags[2]];
    assert e.tags[1][1] == post && e.tags[1][3] == "reply";
    StripsItsPrefix(GESTURE_PREFIX, gesture);
    assert e.tags[2][1] == GESTURE_PREFIX + gesture;
  }

  /** The relay as memory of the lines: a line written for one bus event is found for
      that event and for no other. */
  lemma LineReadsBack(e: Event, channel: string, written: string, asked: string)
    requires e.tags == LineTags(channel, written)
    ensures ReferencesEvent(e, asked) <==> written == asked
  {
    assert e.tags[1][1] == EVENT_REFERENCE_PREFIX + written;
    StripsItsPrefix(EVENT_REFERENCE_PREFIX, written);
    StripsItsPrefix(EVENT_REFERENCE_PREFIX, asked);
    assert e.tags[0][0][0] == 'h';
  }

  // ---------------------------------------------------------------- which tag counts

  predicate IsNamed(t: Tag, name: string) {
    |t| >= 2 && t[0] == name
  }

  /** Tag `k` is the last of its name. */
  predicate IsLast(tags: seq<Tag>, name: string, k: int) {
    0 <= k < |tags| && IsNamed(tags[k], name) && forall j :: k < j < |tags| ==> !IsNamed(tags[j], name)
  }

  lemma {:induction false} LastOfName(tags: seq<Tag>, name: string, k: nat)
    requires IsLast(tags, name, k)
    ensures var named := TagsNamed(tags, name); named != [] && named[|named| - 1] == tags[k]
    decreases |tags|
  {
    var rest := tags[1..];
    if k > 0 {
      LastOfName(rest, name, k - 1);
    } else {
      NoneOfName(rest, name);
    }
  }

  lemma {:induction false} NoneOfName(tags: seq<Tag>, name: string)
    ensures TagsNamed(tags, name) == [] <==> forall j :: 0 <= j < |tags| ==> !IsNamed(tags[j], name)
  {
    if tags != [] {
      NoneOfName(tags[1..], name);
      assert forall j :: 1 <= j < |tags| ==> tags[j] == tags[1..][j - 1];
    }
  }

  lemma {:induction false} SomeIsLast(tags: seq<Tag>, name: string) returns (k: nat)
    requires exists j :: 0 <= j < |tags| && IsNamed(tags[j], name)
    ensures IsLast(tags, name, k)
    decreases |tags|
  {
    var end := |tags| - 1;
    if IsNamed(tags[end], name) {
      k := end;
    } else {
      k := SomeIsLast(tags[..end], name);
    }
  }

  /** An event is on the post its last `e` tag names, whichever posts the ones before it
      quote, if it is a reaction or a comment; so it is on one post at most, and a direct
      reply to a post is on it. */
  lemma OneTarget(e: Event, p: string, q: string)
    ensures Targets(e, p) <==>
      (e.kind == 7 || e.kind == 45003) && exists k :: IsLast(e.tags, "e", k) && e.tags[k][1] == p
    ensures IsDirectReply(e, p) ==> Targets(e, p)
    ensures Targets(e, p) && Targets(e, q) ==> p == q
  {
    NoneOfName(e.tags, "e");
    if TagsNamed(e.tags, "e") != [] {
      var k := SomeIsLast(e.tags, "e");
      LastOfName(e.tags, "e", k);
    }
  }

  /** Exactly one tag has the name, and it is tag `k`. */
  predicate IsOnly(tags: seq<Tag>, name: string, k: int) {
    0 <= k < |tags| && forall j :: 0 <= j < |tags| ==> (IsNamed(tags[j], name) <==> j == k)
  }

  lemma {:induction false} OnlyOfName(tags: seq<Tag>, name: string)
    ensures |TagsNamed(tags, name)| == 1 <==> exists k :: IsOnly(tags, name, k)
    decreases |tags|
  {
    if tags != [] {
      var rest := tags[1..];
      NoneOfName(rest, name);
      OnlyOfName(rest, name);
      if IsNamed(tags[0], name) {
        assert TagsNamed(rest, name) == [] <==> IsOnly(tags, name, 0);
        assert forall k :: IsOnly(tags, name, k) ==> k == 0;
      } else {
        assert forall k :: IsOnly(tags, name, k) ==> k > 0 && IsOnly(rest, name, k - 1);
        assert forall k :: IsOnly(rest, name, k) ==> IsOnly(tags, name, k + 1) by {
          forall k | IsOnly(rest, name, k)
            ensures IsOnly(tags, name, k + 1)
          {
            assert forall j :: 1 <= j < |tags| ==> tags[j] == rest[j - 1];
          }
        }
      }
    }
  }

  /** A direct reply to a post is a comment with one `e` tag, which names the post and is
      marked as a reply or not at all. */
  lemma DirectReplyIs(e: Event, p: string)
    ensures IsDirectReply(e, p) <==>
      e.kind == 45003 && exists k :: (
        && IsOnly(e.tags, "e", k) && e.tags[k][1] == p
        && (|e.tags[k]| <= 3 || e.tags[k][3] in ["", "reply"]))
  {
    OnlyOfName(e.tags, "e");
    forall k | IsOnly(e.tags, "e", k)
      ensures |TagsNamed(e.tags, "e")| == 1 && TagsNamed(e.tags, "e")[0] == e.tags[k]
    {
      LastOfName(e.tags, "e", k);
    }
  }

  // ---------------------------------------------------------------- which answer is read

  predicate IsReference(t: Tag) {
    IsNamed(t, "r") && "twalk:gesture:" <= t[1]
  }

  /** Tag `k` is the first reference to a gesture. */
  predicate IsFirstReference(tags: seq<Tag>, k: int) {
    0 <= k < |tags| && IsReference(tags[k]) && forall j :: 0 <= j < k ==> !IsReference(tags[j])
  }

  /** What the first tag adds to the search. */
  lemma OneTagOn(tags: seq<Tag>)
    requires tags != []
    ensures var found, rest := FirstWithPrefix(TagsNamed(tags, "r"), GESTURE_PREFIX), FirstWithPrefix(TagsNamed(tags[1..], "r"), GESTURE_PREFIX);
      found == if IsReference(tags[0]) then Some(tags[0][1][|GESTURE_PREFIX|..]) else rest
  {
    var named := TagsNamed(tags[1..], "r");
    if IsNamed(tags[0], "r") {
      assert TagsNamed(tags, "r") == [tags[0]] + named && ([tags[0]] + named)[1..] == named;
    } else {
      assert TagsNamed(tags, "r") == named;
    }
  }

  lemma {:induction false} FirstReference(tags: seq<Tag>, k: nat)
    requires IsFirstReference(tags, k)
    ensures FirstWithPrefix(TagsNamed(tags, "r"), GESTURE_PREFIX) == Some(tags[k][1][|"twalk:gesture:"|..])
  {
    OneTagOn(tags);
    if k > 0 {
      FirstReference(tags[1..], k - 1);
    }
  }

  lemma OneReferenceOn(tags: seq<Tag>, k: nat)
    requires tags != [] && !IsReference(tags[0])
    ensures IsFirstReference(tags[1..], k) ==> IsFirstReference(tags, k + 1)
    ensures (forall j :: 0 <= j < |tags| - 1 ==> !IsReference(tags[1..][j])) ==> forall j :: 0 <= j < |tags| ==> !IsReference(tags[j])
  {
    assert forall j :: 1 <= j < |tags| ==> tags[j] == tags[1..][j - 1];
  }

  lemma {:induction false} NoReference(tags: seq<Tag>) returns (k: nat)
    ensures k <= |tags| && (k < |tags| ==> IsFirstReference(tags, k))
    ensures k == |tags| ==>
      FirstWithPrefix(TagsNamed(tags, "r"), GESTURE_PREFIX).None? && forall j :: 0 <= j < |tags| ==> !IsReference(tags[j])
  {
    if tags == [] || IsReference(tags[0]) {
      k := 0;
    } else {
      OneTagOn(tags);
      var l := NoReference(tags[1..]);
      k := l + 1;
      OneReferenceOn(tags, l);
    }
  }

  /** An answer is to the gesture its first reference names, if that names one. */
  lemma AnsweredIs(e: Event, gesture: string)
    ensures AnsweredGesture(e) == Some(gesture) <==>
      gesture != "" && exists k :: IsFirstReference(e.tags, k) && e.tags[k][1] == "twalk:gesture:" + gesture
  {
    var k := NoReference(e.tags);
    if k < |e.tags| {
      FirstReference(e.tags, k);
      var value := e.tags[k][1];
      assert value == "twalk:gesture:" + value[|"twalk:gesture:"|..];
      StripsItsPrefix("twalk:gesture:", gesture);
      assert forall l :: IsFirstReference(e.tags, l) ==> l == k;
    }
  }

  // ---------------------------------------------------------------- reading

  /** What of an answer of the relay is believed. */
  function Genuine(served: seq<Event>): (r: seq<Event>)
    ensures forall e :: e in r <==> e in served && e.genuine
  {
    if served == [] then []
    else (if served[0].genuine then [served[0]] else []) + Genuine(served[1..])
  }

  lemma GenuinePush(served: seq<Event>, e: Event)
    ensures Genuine(served + [e]) == Genuine(served) + (if e.genuine then [e] else [])
  {
    if served != [] {
      assert (served + [e])[1..] == served[1..] + [e];
    } else {
      assert ([] + [e]) == [e] && [e][1..] == [];
    }
  }

  function Forged(served: seq<Event>): (r: seq<Event>)
    ensures forall e :: e in r <==> e in served && !e.genuine
  {
    if served == [] then []
    else Forged(served[..|served| - 1]) + (if served[|served| - 1].genuine then [] else [served[|served| - 1]])
  }

  method Verified(served: seq<Event>) returns (events: seq<Event>, rejected: seq<Event>)
    ensures events == Genuine(served)
    ensures rejected == Forged(served)
  {
    events, rejected := [], [];
    for i := 0 to |served|
      invariant events == Genuine(served[..i])
      invariant rejected == Forged(served[..i])
    {
      assert served[..i + 1] == served[..i] + [served[i]];
      assert served[..i + 1][..i] == served[..i];
      GenuinePush(served[..i], served[i]);
      if served[i].genuine {
        events := events + [served[i]];
      } else {
        rejected := rejected + [served[i]];
      }
    }
    assert served[..|served|] == served;
  }

  predicate HasId(events: seq<Event>, id: string) {
    exists i :: 0 <= i < |events| && events[i].id == id
  }

  predicate DistinctIds(events: seq<Event>) {
    forall i, j :: 0 <= i < j < |events| ==> events[i].id != events[j].id
  }

  /** A request that was not answered, or the relay's answer to it. */
  type Served = Option<seq<Event>>

  predicate AllServed(answers: seq<Served>) {
    forall i :: 0 <= i < |answers| ==> answers[i].Some?
  }

  function Believed(answers: seq<Served>): seq<Event>
    requires AllServed(answers)
  {
    if answers == [] then [] else Believed(answers[..|answers| - 1]) + Genuine(answers[|answers| - 1].value)
  }

  /** `seen` holds exactly the ids of `events`, which are distinct. */
  predicate Indexed(events: seq<Event>, seen: set<string>) {
    DistinctIds(events) && (forall id :: id in seen ==> HasId(events, id)) && (forall e :: e in events ==> e.id in seen)
  }

  /** The inner loop: the events of one answer whose id is new. */
  method AddNew(events: seq<Event>, seen: set<string>, served: seq<Event>)
    returns (more: seq<Event>, ids: set<string>)
    requires Indexed(events, seen)
    ensures Indexed(more, ids)
    ensures events <= more
    ensures forall e :: e in more ==> e in events || e in served
    ensures forall e :: e in served ==> HasId(more, e.id)
  {
    more, ids := events, seen;
    for j := 0 to |served|
      invariant Indexed(more, ids)
      invariant events <= more
      invariant forall e :: e in more ==> e in events || e in served
      invariant forall i :: 0 <= i < j ==> HasId(more, served[i].id)
    {
      var e := served[j];
      if e.id !in ids {
        KeepsIds(more, e);
        ids := ids + {e.id};
        more := more + [e];
      }
    }
  }

  /** One query per filter: fails with the first that fails; otherwise every event the
      queries served and that verifies, each id once. */
  method QueryEach(answers: seq<Served>) returns (r: Served)
    ensures r.Some? <==> AllServed(answers)
    ensures r.Some? ==> DistinctIds(r.value)
    ensures r.Some? ==> forall e :: e in r.value ==> e in Believed(answers)
    ensures r.Some? ==> forall e :: e in Believed(answers) ==> HasId(r.value, e.id)
  {
    var seen: set<string> := {};
    var events: seq<Event> := [];
    for i := 0 to |answers|
      invariant AllServed(answers[..i])
      invariant Indexed(events, seen)
      invariant forall e :: e in events ==> e in Believed(answers[..i])
      invariant forall e :: e in Believed(answers[..i]) ==> HasId(events, e.id)
    {
      if answers[i].None? {
        return None;
      }
      var served, _ := Verified(answers[i].value);
      ghost var before := events;
      events, seen := AddNew(events, seen, served);
      assert answers[..i + 1][..i] == answers[..i];
      assert Believed(answers[..i + 1]) == Believed(answers[..i]) + served;
      forall e | e in Believed(answers[..i])
        ensures HasId(events, e.id)
      {
        var k :| 0 <= k < |before| && before[k].id == e.id;
        assert events[k].id == e.id;
      }
    }
    assert answers[..|answers|] == answers;
    return Some(events);
  }

  lemma KeepsIds(events: seq<Event>, e: Event)
    ensures forall id :: HasId(events + [e], id) <==> HasId(events, id) || id == e.id
  {
    var more := events + [e];
    assert more[|events|] == e;
    forall id | HasId(events, id)
      ensures HasId(more, id)
    {
      var i :| 0 <= i < |events| && events[i].id == id;
      assert more[i].id == id;
    }
  }

  // ---------------------------------------------------------------- chunked queries

  /** A gesture filter: a reaction or a thread reply with an `e` tag in `ids`. */
  predicate Matches(e: Event, ids: seq<string>) {
    && (e.kind == KIND_REACTION || e.kind == KIND_FORUM_COMMENT)
    && exists i :: 0 <= i < |e.tags| && |e.tags[i]| >= 2 && e.tags[i][0] == "e" && e.tags[i][1] in ids
  }

  /** An honest answer to that filter: of the events that verify, exactly those held
      that match, in any order and any number of times; anything at all that does not. */
  ghost predicate Honest(answer: seq<Event>, held: set<Event>, ids: seq<string>) {
    forall e: Event :: e.genuine ==> (e in answer <==> e in held && Matches(e, ids))
  }

  /** An id is a hash: of a held event that verifies it is not empty, and two that share it
      are one. */
  predicate IdsAreHashes(held: set<Event>) {
    && (forall e :: e in held && e.genuine ==> e.id != "")
    && forall e, f :: e in held && f in held && e.genuine && f.genuine && e.id == f.id ==> e == f
  }

  function Chunks(ids: seq<string>): (r: seq<seq<string>>)
    ensures forall id :: id in ids <==> exists i :: 0 <= i < |r| && id in r[i]
    ensures forall i :: 0 <= i < |r| ==> 0 < |r[i]| <= 100
    ensures forall i :: 0 <= i < |r| - 1 ==> |r[i]| == 100
    decreases |ids|
  {
    if ids == [] then []
    else if |ids| <= GESTURE_QUERY_IDS then
      var r := [ids];
      assert r[0] == ids;
      r
    else
      var head, tail := ids[..GESTURE_QUERY_IDS], ids[GESTURE_QUERY_IDS..];
      assert ids == head + tail;
      var rest := Chunks(tail);
      var r := [head] + rest;
      assert r[0] == head;
      assert forall i :: 0 <= i < |rest| ==> r[i + 1] == rest[i];
      r
  }

  lemma MatchesSomeChunk(e: Event, ids: seq<string>) returns (i: nat)
    requires Matches(e, ids)
    ensures i < |Chunks(ids)| && Matches(e, Chunks(ids)[i])
  {
    var t :| 0 <= t < |e.tags| && |e.tags[t]| >= 2 && e.tags[t][0] == "e" && e.tags[t][1] in ids;
    var chunks, id := Chunks(ids), e.tags[t][1];
    assert exists k :: 0 <= k < |chunks| && id in chunks[k];
    i :| 0 <= i < |chunks| && id in chunks[i];
  }

  lemma ChunkMatches(e: Event, ids: seq<string>, i: nat)
    requires i < |Chunks(ids)| && Matches(e, Chunks(ids)[i])
    ensures Matches(e, ids)
  {
    var chunk := Chunks(ids)[i];
    var t :| 0 <= t < |e.tags| && |e.tags[t]| >= 2 && e.tags[t][0] == "e" && e.tags[t][1] in chunk;
    assert e.tags[t][1] in ids;
  }

  lemma {:induction false} BelievedIs(answers: seq<Served>, e: Event)
    requires AllServed(answers)
    ensures e in Believed(answers) <==> e.genuine && exists i :: 0 <= i < |answers| && e in answers[i].value
  {
    if answers == [] {
    } else {
      var init, last := answers[..|answers| - 1], |answers| - 1;
      BelievedIs(init, e);
      assert e in Believed(answers) <==> e in Believed(init) || (e in answers[last].value && e.genuine);
      assert forall i :: 0 <= i < last ==> init[i] == answers[i];
    }
  }

  /** Chunking is invisible: the queries for the chunks of `ids`, answered honestly,
      believe exactly what one query for all of `ids` would. */
  lemma ChunkingIsInvisible(answers: seq<Served>, held: set<Event>, ids: seq<string>, e: Event)
    requires AllServed(answers) && |answers| == |Chunks(ids)|
    requires forall i :: 0 <= i < |answers| ==> Honest(answers[i].value, held, Chunks(ids)[i])
    ensures e in Believed(answers) <==> e.genuine && e in held && Matches(e, ids)
  {
    BelievedIs(answers, e);
    if e.genuine && e in held && Matches(e, ids) {
      var i := MatchesSomeChunk(e, ids);
      assert e in answers[i].value;
    }
    if e in Believed(answers) {
      var i :| 0 <= i < |answers| && e in answers[i].value;
      ChunkMatches(e, ids, i);
    }
  }
}

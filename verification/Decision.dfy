/** Reading the gestures on one of the clerk's posts: what each means, in which
    order they are read, and which one is acted on. */
module Decisions {
  import opened Strings
  import opened Relay

  // ---------------------------------------------------------------- one event

  datatype Gesture = Approve | ApproveEdited(text: string) | Refuse

  datatype Decision = Decision(gesture: Gesture, gestureId: string, byOwner: bool, author: string, createdAt: nat)

  const VARIATION_SELECTOR := '\U{FE0F}'
  const APPROVE: seq<string> := ["\U{2705}", "\U{2714}\U{FE0F}"]
  const REFUSE: seq<string> := ["\U{274C}", "\U{2716}\U{FE0F}"]

  function DropSelectors(s: string): string {
    if s != "" && s[|s| - 1] == VARIATION_SELECTOR then DropSelectors(s[..|s| - 1]) else s
  }

  /** Trimmed, and without trailing variation selectors. */
  function Bare(content: string): string {
    DropSelectors(Trim(content))
  }

  predicate Spells(content: string, emojis: seq<string>) {
    exists i :: 0 <= i < |emojis| && Bare(emojis[i]) == Bare(content)
  }

  function EmojiGesture(content: string): Option<Gesture> {
    if Spells(content, APPROVE) then Some(Approve)
    else if Spells(content, REFUSE) then Some(Refuse)
    else None
  }

  function GestureOf(e: Event, post: string): Option<Gesture> {
    if e.kind == KIND_REACTION then EmojiGesture(e.content)
    else if !IsDirectReply(e, post) then None
    else
      var text := Trim(e.content);
      if text == "" then None
      else if EmojiGesture(text).Some? then EmojiGesture(text)
      else Some(ApproveEdited(text))
  }

  /** The decision an event is on `post`, if it is one. */
  function DecisionOf(e: Event, post: string, owner: string): Option<Decision> {
    if !Targets(e, post) || GestureOf(e, post).None? then None
    else Some(Decision(GestureOf(e, post).value, e.id, e.pubkey == owner, e.pubkey, e.createdAt))
  }

  /** `text` is the emoji, with any number of variation selectors after it. */
  predicate IsEmoji(text: string, emoji: char) {
    text != "" && text[0] == emoji && forall i :: 1 <= i < |text| ==> text[i] == '\U{FE0F}'
  }

  predicate SaysYes(text: string) {
    IsEmoji(text, '\U{2705}') || IsEmoji(text, '\U{2714}')
  }

  predicate SaysNo(text: string) {
    IsEmoji(text, '\U{274C}') || IsEmoji(text, '\U{2716}')
  }

  lemma {:induction false} BareEmoji(text: string, emoji: char)
    requires emoji != '\U{FE0F}'
    ensures DropSelectors(text) == [emoji] <==> IsEmoji(text, emoji)
  {
    if text != "" && text[|text| - 1] == '\U{FE0F}' {
      BareEmoji(text[..|text| - 1], emoji);
    }
  }

  lemma SpellingOf(emoji: char, spelled: string)
    requires !IsWhite(emoji) && emoji != '\U{FE0F}' && (spelled == [emoji] || spelled == [emoji, '\U{FE0F}'])
    ensures Bare(spelled) == [emoji]
  {
    TrimFacts(spelled);
    BareEmoji(spelled, emoji);
  }

  /** A content approves exactly when, trimmed, it is one check mark or the other, refuses
      exactly when it is one cross or the other, whatever variation selectors follow. */
  lemma EmojiMeans(content: string)
    ensures EmojiGesture(content) ==
      if SaysYes(Trim(content)) then Some(Approve) else if SaysNo(Trim(content)) then Some(Refuse) else None
    ensures !(SaysYes(Trim(content)) && SaysNo(Trim(content)))
  {
    SpellingOf('\U{2705}', APPROVE[0]);
    SpellingOf('\U{2714}', APPROVE[1]);
    SpellingOf('\U{274C}', REFUSE[0]);
    SpellingOf('\U{2716}', REFUSE[1]);
    BareEmoji(Trim(content), '\U{2705}');
    BareEmoji(Trim(content), '\U{2714}');
    BareEmoji(Trim(content), '\U{274C}');
    BareEmoji(Trim(content), '\U{2716}');
    assert Spells(content, APPROVE) <==> Bare(APPROVE[0]) == Bare(content) || Bare(APPROVE[1]) == Bare(content);
    assert Spells(content, REFUSE) <==> Bare(REFUSE[0]) == Bare(content) || Bare(REFUSE[1]) == Bare(content);
  }

  /** Which events decide on a post, and what. A reaction decides if it is one of the emoji;
      a direct reply if there is anything in it, the emoji read as such and everything else
      sent as it stands, trimmed. No other event decides. */
  lemma DecidesExactly(e: Event, post: string, owner: string)
    ensures var text := Trim(e.content);
      DecisionOf(e, post, owner).Some? <==>
        Targets(e, post)
        && if e.kind == 7 then SaysYes(text) || SaysNo(text) else IsDirectReply(e, post) && text != ""
    ensures var d, text := DecisionOf(e, post, owner), Trim(e.content);
      d.Some? ==>
        && d.value.gestureId == e.id && d.value.author == e.pubkey && d.value.createdAt == e.createdAt
        && (d.value.byOwner <==> e.pubkey == owner)
        && d.value.gesture == if SaysYes(text) then Approve else if SaysNo(text) then Refuse else ApproveEdited(text)
  {
    TrimFacts(e.content);
    TrimFacts(Trim(e.content));
    EmojiMeans(e.content);
    EmojiMeans(Trim(e.content));
  }

  /** What a decision says about the event it was read off. An edited reply is sent as the
      event's own trimmed text, and is never one of the emoji. */
  lemma DecisionMeans(e: Event, post: string, owner: string, d: Decision)
    requires DecisionOf(e, post, owner) == Some(d)
    ensures Targets(e, post) && e.id == d.gestureId && e.createdAt == d.createdAt
    ensures e.pubkey == d.author && (d.byOwner <==> e.pubkey == owner)
    ensures d.gesture.Approve? <==> SaysYes(Trim(e.content))
    ensures d.gesture.Refuse? <==> SaysNo(Trim(e.content))
    ensures d.gesture.ApproveEdited? ==>
      IsDirectReply(e, post) && d.gesture.text == Trim(e.content) && Trim(e.content) != ""
  {
    DecidesExactly(e, post, owner);
    EmojiMeans(e.content);
  }

  // ---------------------------------------------------------------- the order

  /** Lexicographic order on ids, as `str::cmp` has it. */
  predicate IdLe(a: string, b: string) {
    a == "" || (b != "" && (a[0] < b[0] || (a[0] == b[0] && IdLe(a[1..], b[1..]))))
  }

  lemma {:induction false} IdLeTotal(a: string, b: string)
    ensures IdLe(a, b) || IdLe(b, a)
    ensures IdLe(a, b) && IdLe(b, a) ==> a == b
  {
    if a != "" && b != "" {
      IdLeTotal(a[1..], b[1..]);
      if a[0] == b[0] && a[1..] == b[1..] {
        assert a == [a[0]] + a[1..] && b == [b[0]] + b[1..];
      }
    }
  }

  lemma {:induction false} IdLeTransitive(a: string, b: string, c: string)
    requires IdLe(a, b) && IdLe(b, c)
    ensures IdLe(a, c)
  {
    if a != "" && a[0] == b[0] == c[0] {
      IdLeTransitive(a[1..], b[1..], c[1..]);
    }
  }

  /** Oldest first, ties by event id. */
  predicate Le(a: Decision, b: Decision) {
    a.createdAt < b.createdAt || (a.createdAt == b.createdAt && IdLe(a.gestureId, b.gestureId))
  }

  lemma LeOrders(a: Decision, b: Decision)
    ensures Le(a, b) || Le(b, a)
    ensures Le(a, b) && Le(b, a) ==> a.createdAt == b.createdAt && a.gestureId == b.gestureId
  {
    IdLeTotal(a.gestureId, b.gestureId);
  }

  lemma LeTransitive(a: Decision, b: Decision, c: Decision)
    requires Le(a, b) && Le(b, c)
    ensures Le(a, c)
  {
    if a.createdAt == b.createdAt == c.createdAt {
      IdLeTransitive(a.gestureId, b.gestureId, c.gestureId);
    }
  }

  /** The two agree up to place `k`, and there `a` ends or has the smaller character. */
  predicate FirstAt(a: string, b: string, k: int) {
    && 0 <= k <= |a| && k <= |b| && a[..k] == b[..k]
    && (k == |a| || (k < |b| && a[k] < b[k]))
  }

  /** `a` was made before `b`, or in the same second with the lower id, or is the same. */
  ghost predicate Older(a: Decision, b: Decision) {
    a.createdAt < b.createdAt || (a.createdAt == b.createdAt && exists k :: FirstAt(a.gestureId, b.gestureId, k))
  }

  lemma {:induction false} IdLeIs(a: string, b: string)
    ensures IdLe(a, b) <==> exists k :: FirstAt(a, b, k)
  {
    if a == "" {
      assert FirstAt(a, b, 0);
    } else if b != "" && a[0] == b[0] {
      var s, t := a[1..], b[1..];
      IdLeIs(s, t);
      if k :| FirstAt(s, t, k) {
        assert a[..k + 1] == [a[0]] + s[..k] && b[..k + 1] == [b[0]] + t[..k];
        assert FirstAt(a, b, k + 1);
      }
      if k :| FirstAt(a, b, k) {
        assert k > 0 && s[..k - 1] == a[..k][1..] && t[..k - 1] == b[..k][1..];
        assert FirstAt(s, t, k - 1);
      }
    } else if b != "" && a[0] < b[0] {
      assert FirstAt(a, b, 0);
    } else {
      forall k
        ensures !FirstAt(a, b, k)
      {
        assert 0 < k <= |a| && k <= |b| ==> a[..k][0] == a[0] && b[..k][0] == b[0];
      }
    }
  }

  lemma LeIsOlder(a: Decision, b: Decision)
    ensures Le(a, b) <==> Older(a, b)
  {
    IdLeIs(a.gestureId, b.gestureId);
  }

  /** From the oldest on. */
  ghost predicate OldestFirst(ds: seq<Decision>) {
    forall i, j :: 0 <= i < j < |ds| ==>
      && ds[i].createdAt <= ds[j].createdAt
      && (ds[i].createdAt == ds[j].createdAt ==> exists k :: FirstAt(ds[i].gestureId, ds[j].gestureId, k))
  }

  lemma SortedIsOldestFirst(ds: seq<Decision>)
    ensures Sorted(ds) <==> OldestFirst(ds)
  {
    forall i, j | 0 <= i < j < |ds|
      ensures Le(ds[i], ds[j]) <==> Older(ds[i], ds[j])
    {
      LeIsOlder(ds[i], ds[j]);
    }
  }

  predicate Sorted(ds: seq<Decision>) {
    forall i, j :: 0 <= i < j < |ds| ==> Le(ds[i], ds[j])
  }

  // ---------------------------------------------------------------- the decisions on a post

  function Collected(post: string, owner: string, events: seq<Event>): (r: seq<Decision>)
    ensures forall d :: d in r <==> exists e :: e in events && DecisionOf(e, post, owner) == Some(d)
  {
    if events == [] then []
    else
      var last := events[|events| - 1];
      var d := DecisionOf(last, post, owner);
      var rest := events[..|events| - 1];
      assert events == rest + [last];
      Collected(post, owner, rest) + (if d.Some? then [d.value] else [])
  }

  /** Where a stable sort puts `d` among `ds`: after the last one not above it. */
  function Place(ds: seq<Decision>, d: Decision): (k: nat)
    ensures k <= |ds|
    ensures k > 0 ==> Le(ds[k - 1], d)
    ensures forall i :: k <= i < |ds| ==> !Le(ds[i], d)
  {
    if ds == [] then 0
    else if Le(ds[|ds| - 1], d) then |ds|
    else Place(ds[..|ds| - 1], d)
  }

  function Insert(ds: seq<Decision>, d: Decision): seq<Decision> {
    ds[..Place(ds, d)] + [d] + ds[Place(ds, d)..]
  }

  /** The stable sort. */
  function Sort(ds: seq<Decision>): seq<Decision> {
    if ds == [] then [] else Insert(Sort(ds[..|ds| - 1]), ds[|ds| - 1])
  }

  function DecisionsOn(post: string, owner: string, events: seq<Event>): seq<Decision> {
    Sort(Collected(post, owner, events))
  }

  lemma PlaceIs(ds: seq<Decision>, d: Decision, k: nat)
    requires k <= |ds| && (k > 0 ==> Le(ds[k - 1], d))
    requires forall i :: k <= i < |ds| ==> !Le(ds[i], d)
    ensures Place(ds, d) == k
  {
  }

  method InsertInOrder(ds: seq<Decision>, d: Decision) returns (r: seq<Decision>)
    ensures r == Insert(ds, d)
  {
    var k: nat := |ds|;
    while k > 0 && !Le(ds[k - 1], d)
      invariant 0 <= k <= |ds|
      invariant forall i :: k <= i < |ds| ==> !Le(ds[i], d)
    {
      k := k - 1;
    }
    PlaceIs(ds, d, k);
    r := ds[..k] + [d] + ds[k..];
  }

  /** Collects the decisions among the events, then sorts them. */
  method ComputeDecisionsOn(post: string, owner: string, events: seq<Event>) returns (ds: seq<Decision>)
    ensures ds == DecisionsOn(post, owner, events)
  {
    var collected := [];
    for i := 0 to |events|
      invariant collected == Collected(post, owner, events[..i])
    {
      assert events[..i + 1][..i] == events[..i];
      var d := DecisionOf(events[i], post, owner);
      if d.Some? {
        collected := collected + [d.value];
      }
    }
    assert events[..|events|] == events;
    ds := SortInOrder(collected);
  }

  /** The decisions in order, one put in its place after the other. */
  method SortInOrder(collected: seq<Decision>) returns (ds: seq<Decision>)
    ensures ds == Sort(collected)
  {
    ds := [];
    for i := 0 to |collected|
      invariant ds == Sort(collected[..i])
    {
      assert collected[..i + 1][..i] == collected[..i];
      ds := InsertInOrder(ds, collected[i]);
    }
    assert collected[..|collected|] == collected;
  }

  // ---------------------------------------------------------------- sorted, complete, unique

  predicate Distinct(ds: seq<Decision>) {
    forall i, j :: 0 <= i < j < |ds| ==> ds[i].gestureId != ds[j].gestureId
  }

  lemma InsertAt(ds: seq<Decision>, d: Decision)
    ensures var k, r := Place(ds, d), Insert(ds, d);
      |r| == |ds| + 1 && forall i :: 0 <= i < |r| ==> r[i] == if i < k then ds[i] else if i == k then d else ds[i - 1]
  {
  }

  lemma InsertKeepsSorted(ds: seq<Decision>, d: Decision)
    requires Sorted(ds)
    ensures Sorted(Insert(ds, d))
  {
    var k := Place(ds, d);
    InsertAt(ds, d);
    forall i | 0 <= i < |ds|
      ensures if i < k then Le(ds[i], d) else Le(d, ds[i])
    {
      if i + 1 < k {
        LeTransitive(ds[i], ds[k - 1], d);
      }
      LeOrders(ds[i], d);
    }
  }

  lemma InsertKeepsMembers(ds: seq<Decision>, d: Decision)
    ensures forall x :: x in Insert(ds, d) <==> x in ds || x == d
  {
    var k := Place(ds, d);
    assert ds == ds[..k] + ds[k..];
  }

  lemma InsertKeepsDistinct(ds: seq<Decision>, d: Decision)
    requires Distinct(ds) && forall x :: x in ds ==> x.gestureId != d.gestureId
    ensures Distinct(Insert(ds, d))
  {
    InsertAt(ds, d);
    var k, r := Place(ds, d), Insert(ds, d);
    forall i, j | 0 <= i < j < |r|
      ensures r[i].gestureId != r[j].gestureId
    {
      assert j < k ==> r[i] == ds[i] && r[j] == ds[j];
      assert j > k ==> r[j] == ds[j - 1] && (i < k ==> r[i] == ds[i]) && (i > k ==> r[i] == ds[i - 1]);
    }
  }

  lemma {:induction false} SortFacts(ds: seq<Decision>)
    ensures Sorted(Sort(ds))
    ensures forall x :: x in Sort(ds) <==> x in ds
    ensures Distinct(ds) ==> Distinct(Sort(ds))
  {
    if ds == [] {
    } else {
      var init, last := ds[..|ds| - 1], ds[|ds| - 1];
      SortFacts(init);
      InsertKeepsMembers(Sort(init), last);
      InsertKeepsSorted(Sort(init), last);
      assert ds == init + [last];
      if Distinct(ds) {
        forall x | x in Sort(init)
          ensures x.gestureId != last.gestureId
        {
          var i :| 0 <= i < |init| && init[i] == x;
          assert ds[i] == x;
        }
        InsertKeepsDistinct(Sort(init), last);
      }
    }
  }

  lemma {:induction false} CollectedDistinct(post: string, owner: string, events: seq<Event>)
    requires DistinctIds(events)
    ensures Distinct(Collected(post, owner, events))
    ensures forall d :: d in Collected(post, owner, events) ==> exists e :: e in events && e.id == d.gestureId
  {
    if events == [] {
    } else {
      var init, last := events[..|events| - 1], events[|events| - 1];
      CollectedDistinct(post, owner, init);
    }
  }

  /** Oldest first, each gesture once, and exactly the decisions among the events. */
  lemma DecisionsOnFacts(post: string, owner: string, events: seq<Event>)
    ensures var ds := DecisionsOn(post, owner, events);
      && Sorted(ds) && OldestFirst(ds)
      && (DistinctIds(events) ==> Distinct(ds))
      && forall d :: d in ds <==> exists e :: e in events && DecisionOf(e, post, owner) == Some(d)
  {
    SortFacts(Collected(post, owner, events));
    SortedIsOldestFirst(DecisionsOn(post, owner, events));
    if DistinctIds(events) {
      CollectedDistinct(post, owner, events);
    }
  }

  lemma {:induction false} SortedOnce(a: seq<Decision>, b: seq<Decision>)
    requires Sorted(a) && Sorted(b) && Distinct(a) && Distinct(b)
    requires forall d :: d in a <==> d in b
    ensures a == b
  {
    if a == [] {
      assert forall i :: 0 <= i < |b| ==> b[i] in b;
    } else {
      assert a[0] in b && b != [] && b[0] in a;
      var i :| 0 <= i < |b| && b[i] == a[0];
      var j :| 0 <= j < |a| && a[j] == b[0];
      LeOrders(a[0], b[0]);
      assert i == 0;
      forall d
        ensures d in a[1..] <==> d in b[1..]
      {
        assert d in a[1..] <==> d in a && d != a[0] by { assert a == [a[0]] + a[1..]; }
        assert d in b[1..] <==> d in b && d != b[0] by { assert b == [b[0]] + b[1..]; }
      }
      SortedOnce(a[1..], b[1..]);
    }
  }

  /** The decisions on a post depend on the set of events and on nothing else: not on
      the relay's order, not on how the queries were cut. */
  lemma OrderIsInvisible(post: string, owner: string, one: seq<Event>, other: seq<Event>)
    requires DistinctIds(one) && DistinctIds(other)
    requires forall e :: e in one <==> e in other
    ensures DecisionsOn(post, owner, one) == DecisionsOn(post, owner, other)
  {
    DecisionsOnFacts(post, owner, one);
    DecisionsOnFacts(post, owner, other);
    SortedOnce(DecisionsOn(post, owner, one), DecisionsOn(post, owner, other));
  }

  /** Queried for in chunks, from a relay that orders, repeats and forges as it likes,
      the decisions on a post are those among the events the relay holds on `ids`. */
  lemma ChunkedDecisions(
      post: string, owner: string, answers: seq<Served>, held: set<Event>, ids: seq<string>, events: seq<Event>, all: seq<Event>)
    requires AllServed(answers) && |answers| == |Chunks(ids)|
    requires forall i :: 0 <= i < |answers| ==> Honest(answers[i].value, held, Chunks(ids)[i])
    requires IdsAreHashes(held)
    requires DistinctIds(events) && (forall e :: e in events ==> e in Believed(answers))
    requires forall e :: e in Believed(answers) ==> HasId(events, e.id)
    requires DistinctIds(all) && forall e :: e in all <==> e.genuine && e in held && Matches(e, ids)
    ensures DecisionsOn(post, owner, events) == DecisionsOn(post, owner, all)
  {
    forall e
      ensures e in events <==> e in all
    {
      ChunkingIsInvisible(answers, held, ids, e);
      if e in all {
        var i :| 0 <= i < |events| && events[i].id == e.id;
        ChunkingIsInvisible(answers, held, ids, events[i]);
        assert events[i] == e;
      }
    }
    OrderIsInvisible(post, owner, events, all);
  }

  /** A gesture decides on one post only: the decisions of two posts share no gesture. */
  lemma DisjointPosts(p: string, q: string, owner: string, events: seq<Event>, a: Decision, b: Decision)
    requires DistinctIds(events) && p != q
    requires a in DecisionsOn(p, owner, events) && b in DecisionsOn(q, owner, events)
    ensures a.gestureId != b.gestureId
  {
    DecisionsOnFacts(p, owner, events);
    DecisionsOnFacts(q, owner, events);
    var e :| e in events && DecisionOf(e, p, owner) == Some(a);
    var f :| f in events && DecisionOf(f, q, owner) == Some(b);
    OneTarget(e, p, q);
    assert e.id == f.id ==> e == f;
  }

  // ---------------------------------------------------------------- triage

  function FirstByOwner(ds: seq<Decision>): Option<Decision> {
    if ds == [] then None
    else
      var earlier := FirstByOwner(ds[..|ds| - 1]);
      if earlier.Some? || !ds[|ds| - 1].byOwner then earlier else Some(ds[|ds| - 1])
  }

  function Filter(ds: seq<Decision>, keep: Decision -> bool): seq<Decision> {
    if ds == [] then []
    else Filter(ds[..|ds| - 1], keep) + (if keep(ds[|ds| - 1]) then [ds[|ds| - 1]] else [])
  }

  predicate IsStranger(d: Decision) {
    !d.byOwner
  }

  function Strangers(ds: seq<Decision>): seq<Decision> {
    Filter(ds, IsStranger)
  }

  method Triage(ds: seq<Decision>) returns (act: Option<Decision>, strangers: seq<Decision>)
    ensures act == FirstByOwner(ds)
    ensures strangers == Strangers(ds)
  {
    act, strangers := None, [];
    for i := 0 to |ds|
      invariant act == FirstByOwner(ds[..i])
      invariant strangers == Filter(ds[..i], IsStranger)
    {
      assert ds[..i + 1][..i] == ds[..i];
      if !ds[i].byOwner {
        strangers := strangers + [ds[i]];
      } else if act.None? {
        act := Some(ds[i]);
      }
    }
    assert ds[..|ds|] == ds;
  }

  lemma {:induction false} FilterKeeps(ds: seq<Decision>, keep: Decision -> bool)
    ensures forall d :: d in Filter(ds, keep) <==> d in ds && keep(d)
  {
    if ds == [] {
    } else {
      var init, last := ds[..|ds| - 1], ds[|ds| - 1];
      FilterKeeps(init, keep);
      assert ds == init + [last];
    }
  }

  /** The last of a sorted sequence comes after each of the others, and shares no gesture. */
  lemma LastComesLast(ds: seq<Decision>, d: Decision)
    requires ds != [] && Sorted(ds) && d in ds[..|ds| - 1]
    ensures Le(d, ds[|ds| - 1]) && (Distinct(ds) ==> d.gestureId != ds[|ds| - 1].gestureId)
  {
    var i :| 0 <= i < |ds| - 1 && ds[..|ds| - 1][i] == d;
    assert ds[i] == d;
  }

  lemma {:induction false} FilterOrders(ds: seq<Decision>, keep: Decision -> bool)
    requires Sorted(ds)
    ensures Sorted(Filter(ds, keep))
    ensures Distinct(ds) ==> Distinct(Filter(ds, keep))
  {
    if ds == [] {
    } else {
      var init, last := ds[..|ds| - 1], ds[|ds| - 1];
      FilterOrders(init, keep);
      FilterKeeps(init, keep);
      var kept := Filter(init, keep);
      forall i | 0 <= i < |kept|
        ensures Le(kept[i], last) && (Distinct(ds) ==> kept[i].gestureId != last.gestureId)
      {
        assert kept[i] in kept;
        LastComesLast(ds, kept[i]);
      }
    }
  }

  lemma FilterFacts(ds: seq<Decision>, keep: Decision -> bool)
    requires Sorted(ds)
    ensures forall d :: d in Filter(ds, keep) <==> d in ds && keep(d)
    ensures Sorted(Filter(ds, keep))
    ensures Distinct(ds) ==> Distinct(Filter(ds, keep))
  {
    FilterKeeps(ds, keep);
    FilterOrders(ds, keep);
  }

  lemma {:induction false} FirstByOwnerFacts(ds: seq<Decision>)
    requires Sorted(ds)
    ensures FirstByOwner(ds).None? <==> forall d :: d in ds ==> !d.byOwner
    ensures FirstByOwner(ds).Some? ==>
      var act := FirstByOwner(ds).value;
      act in ds && act.byOwner && forall d :: d in ds && d.byOwner ==> d == act || Le(act, d)
  {
    if ds == [] {
    } else {
      var init, last := ds[..|ds| - 1], ds[|ds| - 1];
      FirstByOwnerFacts(init);
      assert ds == init + [last];
      if FirstByOwner(init).Some? {
        var act := FirstByOwner(init).value;
        var i :| 0 <= i < |init| && init[i] == act;
        assert ds[i] == act;
      }
    }
  }

  /** Of sorted decisions, the one acted on is the owner's oldest, and every stranger's
      is kept, in order. */
  lemma TriageFacts(ds: seq<Decision>)
    requires Sorted(ds)
    ensures FirstByOwner(ds).None? <==> forall d :: d in ds ==> !d.byOwner
    ensures FirstByOwner(ds).Some? ==>
      var act := FirstByOwner(ds).value;
      && act in ds && act.byOwner
      && (forall d :: d in ds && d.byOwner ==> d == act || Le(act, d))
      && forall d :: d in ds && d.byOwner ==> act.createdAt <= d.createdAt && (d == act || Older(act, d))
    ensures forall d :: d in Strangers(ds) <==> d in ds && !d.byOwner
    ensures Sorted(Strangers(ds)) && OldestFirst(Strangers(ds))
    ensures Distinct(ds) ==> Distinct(Strangers(ds))
  {
    FirstByOwnerFacts(ds);
    FilterFacts(ds, IsStranger);
    SortedIsOldestFirst(Strangers(ds));
    if FirstByOwner(ds).Some? {
      forall d | d in ds && d.byOwner && d != FirstByOwner(ds).value
        ensures Older(FirstByOwner(ds).value, d)
      {
        LeIsOlder(FirstByOwner(ds).value, d);
      }
    }
  }

  // ---------------------------------------------------------------- what is already answered

  function NotIn(spent: set<string>): Decision -> bool {
    (d: Decision) => d.gestureId !in spent
  }

  /** The decisions not yet answered, in order. */
  function Unanswered(ds: seq<Decision>, spent: set<string>): seq<Decision> {
    Filter(ds, NotIn(spent))
  }
}

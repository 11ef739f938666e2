/** The reference line of a post in `approbations`: the only memory the clerk has
    of which suggestion a post is about and when it expires. */
module Reference {
  import opened Strings

  const PREFIX := "twalk:suggestion:"
  const UNDATABLE_CEILING: int := 7 * 24 * 60 * 60

  datatype Reference = Reference(suggestionId: string, expiresAt: Option<string>)

  // ---------------------------------------------------------------- writing

  function Line(r: Reference): string {
    match r.expiresAt
    case Some(e) => PREFIX + r.suggestionId + " expires " + e
    case None => PREFIX + r.suggestionId
  }

  // ---------------------------------------------------------------- reading

  predicate IsHexDigit(c: char) {
    '0' <= c <= '9' || 'a' <= c <= 'f'
  }

  predicate IsSuggestionId(id: string) {
    |id| == 64 && forall i :: 0 <= i < |id| ==> IsHexDigit(id[i])
  }

  /** What follows the prefix on the last of `lines` that starts with it once
      trimmed. */
  function LastReference(lines: seq<string>): Option<string> {
    if lines == [] then None
    else
      var rest := StripPrefix(Trim(lines[|lines| - 1]), PREFIX);
      if rest.Some? then rest else LastReference(lines[..|lines| - 1])
  }

  function ReadReference(rest: string): Option<Reference> {
    match NextWord(rest)
    case None => None
    case Some((id, more)) =>
      if !IsSuggestionId(id) then None
      else
        match NextWord(more)
        case None => Some(Reference(id, None))
        case Some((keyword, last)) =>
          if keyword != "expires" then Some(Reference(id, None))
          else
            match NextWord(last)
            case None => Some(Reference(id, None))
            case Some((at, _)) => Some(Reference(id, Some(at)))
  }

  function Parse(content: string): Option<Reference> {
    match LastReference(Lines(content))
    case None => None
    case Some(rest) => ReadReference(rest)
  }

  // ---------------------------------------------------------------- round trip

  /** A reference the contract allows: the deterministic id, and an expiry that is
      one non-empty word. Checkable before the post is written. */
  predicate WellFormed(r: Reference) {
    && IsSuggestionId(r.suggestionId)
    && (r.expiresAt.Some? ==> r.expiresAt.value != "" && Solid(r.expiresAt.value))
  }

  /** Whatever is read off a post is a well-formed reference. */
  lemma ParseIsWellFormed(content: string)
    requires Parse(content).Some?
    ensures WellFormed(Parse(content).value)
    ensures var id := Parse(content).value.suggestionId;
      |id| == 64 && forall i :: 0 <= i < |id| ==> id[i] in "0123456789abcdef"
  {
    IdIs(Parse(content).value.suggestionId);
  }

  /** An id is 64 lower-case hexadecimal digits. */
  lemma IdIs(id: string)
    ensures IsSuggestionId(id) <==> |id| == 64 && forall i :: 0 <= i < |id| ==> id[i] in "0123456789abcdef"
  {
    var digits := "0123456789abcdef";
    forall c: char
      ensures IsHexDigit(c) <==> c in digits
    {
      assert '0' <= c <= '9' ==> digits[c as int - '0' as int] == c;
      assert 'a' <= c <= 'f' ==> digits[10 + (c as int - 'a' as int)] == c;
    }
  }

  /** What comes after the id is nothing, or starts with white space. */
  predicate Apart(rest: string) {
    rest == "" || IsWhite(rest[0])
  }

  /** What follows the prefix, word by word and however the words are spaced: an id, or
      nothing is read; then the word `expires` and the expiry after it, or no expiry. */
  lemma ReadsWords(gap: string, id: string, more: string)
    requires AllWhite(gap) && id != "" && Solid(id) && Apart(more)
    ensures !IsSuggestionId(id) ==> ReadReference(gap + (id + more)).None?
    ensures IsSuggestionId(id) && AllWhite(more) ==> ReadReference(gap + (id + more)) == Some(Reference(id, None))
  {
    NextWordIs(gap, id, more);
    if AllWhite(more) {
      NoWordIs(more);
    }
  }

  lemma ReadsExpiry(gap: string, id: string, space: string, word: string, more: string)
    requires AllWhite(gap) && IsSuggestionId(id) && space != "" && AllWhite(space)
    requires word != "" && Solid(word) && Apart(more)
    ensures var rest := gap + (id + (space + (word + more)));
      && (word != "expires" || AllWhite(more) ==> ReadReference(rest) == Some(Reference(id, None)))
      && (word == "expires" ==> forall blank, at, tail ::
            more == blank + (at + tail) && AllWhite(blank) && at != "" && Solid(at) && Apart(tail) ==>
              ReadReference(rest) == Some(Reference(id, Some(at))))
  {
    HexIsSolid(id);
    NextWordIs(gap, id, space + (word + more));
    NextWordIs(space, word, more);
    if AllWhite(more) {
      NoWordIs(more);
    }
    forall blank, at, tail |
      more == blank + (at + tail) && AllWhite(blank) && at != "" && Solid(at) && Apart(tail)
      ensures NextWord(more) == Some((at, tail))
    {
      NextWordIs(blank, at, tail);
    }
  }

  /** Line `k` is the last that starts with the prefix, white space before it aside. */
  predicate IsLastReference(lines: seq<string>, k: int) {
    && 0 <= k < |lines| && "twalk:suggestion:" <= Trim(lines[k])
    && forall j :: k < j < |lines| ==> !("twalk:suggestion:" <= Trim(lines[j]))
  }

  lemma {:induction false} NoReferenceIs(lines: seq<string>)
    requires forall k :: 0 <= k < |lines| ==> !("twalk:suggestion:" <= Trim(lines[k]))
    ensures LastReference(lines).None?
  {
    if lines != [] {
      NoReferenceIs(lines[..|lines| - 1]);
    }
  }

  lemma {:induction false} LastReferenceIs(lines: seq<string>, k: nat)
    requires IsLastReference(lines, k)
    ensures LastReference(lines) == Some(Trim(lines[k])[17..])
    decreases |lines|
  {
    if k < |lines| - 1 {
      LastReferenceIs(lines[..|lines| - 1], k);
    }
  }

  /** A post's reference is read off the last line that starts with the prefix, wherever it
      stands and whatever stands above and below it; without one there is none. */
  lemma ParseIs(content: string)
    ensures (forall k :: 0 <= k < |Lines(content)| ==> !("twalk:suggestion:" <= Trim(Lines(content)[k]))) ==> Parse(content).None?
    ensures forall k :: IsLastReference(Lines(content), k) ==>
      Parse(content) == ReadReference(Trim(Lines(content)[k])[17..])
  {
    var lines := Lines(content);
    if forall k :: 0 <= k < |lines| ==> !("twalk:suggestion:" <= Trim(lines[k])) {
      NoReferenceIs(lines);
    }
    forall k | IsLastReference(lines, k)
      ensures LastReference(lines) == Some(Trim(lines[k])[17..])
    {
      LastReferenceIs(lines, k);
    }
  }

  lemma HexIsSolid(id: string)
    requires IsSuggestionId(id)
    ensures Solid(id)
  {
  }

  /** What follows the prefix: an id alone, an id and an expiry, or an id and another word. */
  lemma ReadsIdAlone(id: string)
    requires IsSuggestionId(id)
    ensures ReadReference(id) == Some(Reference(id, None))
  {
    HexIsSolid(id);
    WordThen(id, "");
    assert id + "" == id;
  }

  lemma ReadsIdThen(id: string, word: string, rest: string)
    requires IsSuggestionId(id) && word != "" && Solid(word) && (rest == "" || IsWhite(rest[0]))
    ensures word != "expires" ==> ReadReference(id + (" " + (word + rest))) == Some(Reference(id, None))
    ensures word == "expires" && NextWord(rest).Some? ==>
      ReadReference(id + (" " + (word + rest))) == Some(Reference(id, Some(NextWord(rest).value.0)))
  {
    HexIsSolid(id);
    WordThen(id, " " + (word + rest));
    WordAfterBlank(word, rest);
  }

  lemma ExpiresApart(id: string, e: string)
    ensures id + " expires " + e == id + (" " + ("expires" + (" " + (e + ""))))
  {
  }

  lemma AfterPrefix(r: Reference)
    ensures PREFIX <= Line(r)
    ensures Line(r)[|PREFIX|..] == match r.expiresAt case Some(e) => r.suggestionId + " expires " + e case None => r.suggestionId
  {
  }

  lemma ReadsBackTail(r: Reference)
    requires WellFormed(r)
    ensures PREFIX <= Line(r)
    ensures ReadReference(Line(r)[|PREFIX|..]) == Some(r)
  {
    var id := r.suggestionId;
    AfterPrefix(r);
    match r.expiresAt
    case None => ReadsIdAlone(id);
    case Some(e) =>
      ExpiresApart(id, e);
      WordAfterBlank(e, "");
      ReadsIdThen(id, "expires", " " + (e + ""));
  }

  lemma WrittenLineIsTrimmedAndOne(r: Reference)
    requires WellFormed(r)
    ensures Line(r) != "" && '\n' !in Line(r) && Trim(Line(r)) == Line(r)
  {
    HexIsSolid(r.suggestionId);
    var line := Line(r);
    TrimFacts(line);
    assert line[0] == 't';
    assert !IsWhite(line[|line| - 1]);
    assert '\n' !in " expires " && '\n' !in PREFIX;
    assert '\n' !in r.suggestionId;
    assert r.expiresAt.Some? ==> '\n' !in r.expiresAt.value;
  }

  /** What the clerk wrote is what it reads, under any text above it — reference
      lines quoted in a suggestion's own words included — exactly when the
      suggestion carried a well-formed id and expiry. */
  lemma RoundTrip(text: string, r: Reference)
    ensures Parse(text + "\n" + Line(r)) == Some(r) <==> WellFormed(r)
    ensures Line(r) == "twalk:suggestion:" + r.suggestionId + if r.expiresAt.Some? then " expires " + r.expiresAt.value else ""
  {
    if WellFormed(r) {
      WrittenLineIsTrimmedAndOne(r);
      ReadsBackTail(r);
      var line := Line(r);
      LinesAppend(text, line);
      OneLine(line);
      var lines := Lines(text + "\n" + line);
      assert lines[|lines| - 1] == line;
    } else if Parse(text + "\n" + Line(r)) == Some(r) {
      ParseIsWellFormed(text + "\n" + Line(r));
    }
  }

  /** A last line that trims to the prefix and `rest` is the one that is read. */
  lemma LastLineIsRead(text: string, line: string, rest: string)
    requires line != "" && '\n' !in line && Trim(line) == PREFIX + rest
    ensures Parse(text + "\n" + line) == ReadReference(rest)
  {
    LinesAppend(text, line);
    OneLine(line);
    var lines := Lines(text + "\n" + line);
    assert lines[|lines| - 1] == line;
    StripsItsPrefix(PREFIX, rest);
  }

  lemma OneLineEach(line: string, id: string, tail: string)
    requires line == PREFIX + id + tail && '\n' !in id && '\n' !in tail
    ensures '\n' !in line && line != "" && TrimStart(line) == line
  {
    assert '\n' !in PREFIX;
    assert line[0] == 't';
  }

  lemma IdEndsSolid(id: string)
    requires IsSuggestionId(id)
    ensures var head := PREFIX + id; head != "" && !IsWhite(head[|head| - 1])
  {
    assert (PREFIX + id)[|PREFIX + id| - 1] == id[63];
  }

  /** The part of a written line after the id. */
  function AfterId(r: Reference): string {
    match r.expiresAt
    case Some(e) => " expires " + e
    case None => ""
  }

  lemma OwnNameIsReadBack(text: string, r: Reference)
    requires IsSuggestionId(r.suggestionId) && (r.expiresAt.Some? ==> '\n' !in r.expiresAt.value)
    ensures Parse(text + "\n" + Line(r)).Some?
    ensures Parse(text + "\n" + Line(r)).value.suggestionId == r.suggestionId
  {
    var id, tail := r.suggestionId, AfterId(r);
    assert Line(r) == PREFIX + id + tail;
    HexIsSolid(id);
    assert '\n' !in " expires ";
    OneLineEach(Line(r), id, tail);
    IdEndsSolid(id);
    var rest := TrimEndKeepsSolid(PREFIX + id, tail);
    assert PREFIX + id + rest == PREFIX + (id + rest);
    LastLineIsRead(text, Line(r), id + rest);
    WordThen(id, rest);
  }

  /** Whatever its expiry is, so long as it is on one line, a post is read back as its own
      suggestion's exactly when the id is well formed. */
  lemma OwnNameIsRead(text: string, r: Reference)
    requires r.expiresAt.Some? ==> '\n' !in r.expiresAt.value
    ensures Parse(text + "\n" + Line(r)).Some? && Parse(text + "\n" + Line(r)).value.suggestionId == r.suggestionId
       <==> IsSuggestionId(r.suggestionId)
  {
    if IsSuggestionId(r.suggestionId) {
      OwnNameIsReadBack(text, r);
    } else if Parse(text + "\n" + Line(r)).Some? {
      ParseIsWellFormed(text + "\n" + Line(r));
    }
  }

  lemma {:induction false} TrimEndKeepsSolid(head: string, tail: string) returns (rest: string)
    requires head != "" && !IsWhite(head[|head| - 1])
    requires tail == "" || IsWhite(tail[0])
    ensures TrimEnd(head + tail) == head + rest && (rest == "" || IsWhite(rest[0]))
  {
    var s := head + tail;
    if tail == "" || !IsWhite(tail[|tail| - 1]) {
      rest := tail;
    } else {
      var shorter := tail[..|tail| - 1];
      assert s[..|s| - 1] == head + shorter;
      rest := TrimEndKeepsSolid(head, shorter);
    }
  }

  /** The line of a stray id, trimmed to itself. */
  lemma StrayLine(id: string, tail: string)
    requires IsSuggestionId(id) && tail == " again"
    ensures var line := Line(Reference(id + tail, None));
      line != "" && '\n' !in line && Trim(line) == PREFIX + (id + tail)
  {
    var line := Line(Reference(id + tail, None));
    HexIsSolid(id);
    Regroup(PREFIX, id, tail);
    OneLineEach(line, id, tail);
    assert line[|line| - 1] == 'n';
  }

  lemma StrayTail(id: string, tail: string)
    requires IsSuggestionId(id) && tail == " again"
    ensures ReadReference(id + tail) == Some(Reference(id, None))
  {
    var word := tail[1..];
    assert tail == " " + (word + "") && |word| == 5;
    ReadsIdThen(id, word, "");
  }

  lemma StrayIsRead(text: string, id: string, line: string, rest: string)
    requires line != "" && '\n' !in line && Trim(line) == PREFIX + rest
    requires ReadReference(rest) == Some(Reference(id, None))
    ensures Parse(text + "\n" + line) == Some(Reference(id, None))
  {
    LastLineIsRead(text, line, rest);
  }

  /** Without the contract's shape the memory fails: an id followed by a blank and more is
      read back as the id alone, so the post is taken for another suggestion's. */
  lemma StrayIdNamesAnother(text: string, id: string)
    requires IsSuggestionId(id)
    ensures Parse(text + "\n" + Line(Reference(id + " again", None))) == Some(Reference(id, None))
  {
    StrayLine(id, " again");
    StrayTail(id, " again");
    StrayIsRead(text, id, Line(Reference(id + " again", None)), id + " again");
  }

  // ---------------------------------------------------------------- the clerk's memory

  /** Whether any of the clerk's posts names the suggestion on its reference line. */
  predicate AlreadyPosted(contents: seq<string>, id: string) {
    exists i :: 0 <= i < |contents| && Parse(contents[i]).Some? && Parse(contents[i]).value.suggestionId == id
  }

  /** A post the clerk wrote: some text, then the reference line. */
  datatype Written = Written(text: string, reference: Reference)

  function Contents(posts: seq<Written>): (r: seq<string>)
    ensures |r| == |posts|
    ensures forall i :: 0 <= i < |r| ==> r[i] == posts[i].text + "\n" + Line(posts[i].reference)
  {
    seq(|posts|, i requires 0 <= i < |posts| => posts[i].text + "\n" + Line(posts[i].reference))
  }

  /** Reading the posts back answers exactly "a post was written for this id", whatever
      their expiries are, so long as each is on one line. */
  lemma AlreadyPostedIsMemory(posts: seq<Written>, id: string)
    requires forall i :: 0 <= i < |posts| ==> IsSuggestionId(posts[i].reference.suggestionId)
    requires forall i :: 0 <= i < |posts| && posts[i].reference.expiresAt.Some? ==> '\n' !in posts[i].reference.expiresAt.value
    ensures AlreadyPosted(Contents(posts), id)
       <==> exists i :: 0 <= i < |posts| && posts[i].reference.suggestionId == id
  {
    forall i | 0 <= i < |posts|
      ensures Parse(Contents(posts)[i]).Some?
      ensures Parse(Contents(posts)[i]).value.suggestionId == posts[i].reference.suggestionId
    {
      OwnNameIsRead(posts[i].text, posts[i].reference);
    }
  }
}

/** The file the refresh token lives in: one `TWALK_GATEWAY_REFRESH_TOKEN=<token>`
    line among whatever else the operator wrote, read back on every refresh and
    rewritten after every rotation. */
module SessionFiles {
  import opened Strings

  const SESSION_KEY := "TWALK_GATEWAY_REFRESH_TOKEN"

  // ---------------------------------------------------------------- reading

  /** Drops one pair of double quotes, or else one pair of single ones. */
  function Unquote(value: string): string {
    if |value| >= 2 && value[0] == '"' && value[|value| - 1] == '"' then value[1..|value| - 1]
    else if |value| >= 2 && value[0] == '\'' && value[|value| - 1] == '\'' then value[1..|value| - 1]
    else value
  }

  /** The token on one line, if the line is its assignment. */
  function TokenIn(line: string): Option<string> {
    var l := Trim(line);
    if l != "" && l[0] == '#' then None
    else
      var assignment := if "export " <= l then TrimStart(l[|"export "|..]) else l;
      match StripPrefix(assignment, SESSION_KEY)
      case None => None
      case Some(rest) =>
        match StripPrefix(TrimStart(rest), "=")
        case None => None
        case Some(value) => Some(Unquote(Trim(value)))
  }

  function FirstToken(lines: seq<string>): Option<string> {
    if lines == [] then None
    else if TokenIn(lines[0]).Some? then TokenIn(lines[0])
    else FirstToken(lines[1..])
  }

  function Read(contents: string): Option<string> {
    var token := FirstToken(Lines(contents));
    if token == Some("") then None else token
  }

  // ---------------------------------------------------------------- which line is a token's

  /** A value is read without one pair of double quotes around it, or else without one pair
      of single ones, and otherwise as it stands. */
  lemma UnquoteIs(value: string, inner: string)
    ensures Unquote("\"" + inner + "\"") == inner && Unquote("'" + inner + "'") == inner
    ensures (forall v: string :: value != "\"" + v + "\"" && value != "'" + v + "'") ==> Unquote(value) == value
  {
    if |value| >= 2 {
      var v := value[1..|value| - 1];
      assert value == [value[0]] + v + [value[|value| - 1]];
    }
  }

  /** How a token may be written on its line, trimmed: with or without `export`, white space
      before and after the equals sign. */
  ghost predicate Assigns(line: string, value: string) {
    exists gap, space, blank: string ::
      && AllWhite(gap) && AllWhite(space) && AllWhite(blank) && Trimmed(value)
      && (line == "TWALK_GATEWAY_REFRESH_TOKEN" + (space + ("=" + (blank + value)))
          || line == "export " + (gap + ("TWALK_GATEWAY_REFRESH_TOKEN" + (space + ("=" + (blank + value))))))
  }

  /** After the key. */
  lemma ValueIs(space: string, blank: string, value: string)
    requires AllWhite(space) && AllWhite(blank) && Trimmed(value)
    ensures var rest := space + ("=" + (blank + value));
      StripPrefix(TrimStart(rest), "=") == Some(blank + value) && Trim(blank + value) == value
  {
    TrimStartIs(space, "=" + (blank + value));
    StripsItsPrefix("=", blank + value);
    TrimIs(blank, value, "");
    assert blank + value + "" == blank + value;
  }

  lemma AssignedIsRead(line: string, value: string)
    requires Assigns(Trim(line), value)
    ensures TokenIn(line) == Some(Unquote(value))
  {
    var gap: string, space: string, blank: string :|
      && AllWhite(gap) && AllWhite(space) && AllWhite(blank) && Trimmed(value)
      && (Trim(line) == "TWALK_GATEWAY_REFRESH_TOKEN" + (space + ("=" + (blank + value)))
          || Trim(line) == "export " + (gap + ("TWALK_GATEWAY_REFRESH_TOKEN" + (space + ("=" + (blank + value))))));
    var rest := space + ("=" + (blank + value));
    ValueIs(space, blank, value);
    StripsItsPrefix(SESSION_KEY, rest);
    assert (SESSION_KEY + rest)[0] == 'T';
    if Trim(line) != SESSION_KEY + rest {
      StripsItsPrefix("export ", gap + (SESSION_KEY + rest));
      TrimStartIs(gap, SESSION_KEY + rest);
    }
  }

  lemma TrimmedEnd(s: string)
    requires s == "" || !IsWhite(s[|s| - 1])
    ensures Trim(s) == TrimStart(s)
  {
    TrimStartIsSuffix(s);
  }

  /** What comes after the key, taken apart. */
  lemma AfterTheKey(rest: string) returns (space: string, blank: string, value: string)
    requires StripPrefix(TrimStart(rest), "=").Some? && !IsWhite(rest[|rest| - 1])
    ensures AllWhite(space) && AllWhite(blank) && Trimmed(value) && rest == space + ("=" + (blank + value))
    ensures Trim(StripPrefix(TrimStart(rest), "=").value) == value
  {
    space := GapBefore(rest);
    var after := TrimStart(rest)[1..];
    assert TrimStart(rest) == "=" + after;
    blank := GapBefore(after);
    value := TrimStart(after);
    assert after != "" ==> after[|after| - 1] == rest[|rest| - 1];
    TrimmedEnd(after);
    TrimFacts(after);
  }

  /** The assignment on a trimmed line, with or without `export` before it. */
  lemma Assignment(l: string) returns (gap: string, assignment: string)
    requires l != "" && !IsWhite(l[|l| - 1])
    ensures assignment == if "export " <= l then TrimStart(l[|"export "|..]) else l
    ensures AllWhite(gap) && (l == assignment || l == "export " + (gap + assignment))
    ensures assignment != "" ==> !IsWhite(assignment[|assignment| - 1])
  {
    gap, assignment := "", l;
    if "export " <= l {
      gap := GapBefore(l[|"export "|..]);
      assignment := TrimStart(l[|"export "|..]);
      assert l == "export " + (gap + assignment);
    }
  }

  lemma ReadIsAssigned(line: string) returns (value: string)
    requires TokenIn(line).Some?
    ensures Assigns(Trim(line), value) && TokenIn(line) == Some(Unquote(value))
  {
    var l := Trim(line);
    TrimFacts(line);
    var gap, assignment := Assignment(l);
    var rest := assignment[|SESSION_KEY|..];
    assert assignment == SESSION_KEY + rest;
    EndsAlike(SESSION_KEY, rest);
    var space, blank;
    space, blank, value := AfterTheKey(rest);
    AssignsSo(l, gap, assignment, space, blank, value);
  }

  lemma AssignsSo(line: string, gap: string, assignment: string, space: string, blank: string, value: string)
    requires AllWhite(gap) && AllWhite(space) && AllWhite(blank) && Trimmed(value)
    requires assignment == SESSION_KEY + (space + ("=" + (blank + value)))
    requires line == assignment || line == "export " + (gap + assignment)
    ensures Assigns(line, value)
  {
  }

  lemma EndsAlike(key: string, rest: string)
    requires StripPrefix(TrimStart(rest), "=").Some?
    ensures rest != "" && (key + rest)[|key + rest| - 1] == rest[|rest| - 1]
  {
  }

  /** A line holds a token exactly when, trimmed, it assigns one: a comment never does. */
  lemma TokenIsAssigned(line: string)
    ensures TokenIn(line).Some? <==> exists value :: Assigns(Trim(line), value)
    ensures forall value :: Assigns(Trim(line), value) ==> TokenIn(line) == Some(Unquote(value))
  {
    if TokenIn(line).Some? {
      var _ := ReadIsAssigned(line);
    }
    forall value | Assigns(Trim(line), value)
      ensures TokenIn(line) == Some(Unquote(value))
    {
      AssignedIsRead(line, value);
    }
  }

  lemma {:induction false} FirstTokenIs(lines: seq<string>, k: nat)
    requires k <= |lines| && forall j :: 0 <= j < k ==> TokenIn(lines[j]).None?
    requires k < |lines| ==> TokenIn(lines[k]).Some?
    ensures FirstToken(lines) == if k < |lines| then TokenIn(lines[k]) else None
    decreases k
  {
    if k > 0 {
      FirstTokenIs(lines[1..], k - 1);
    }
  }

  /** The token read is that of the first line that holds one, if it is not empty. */
  lemma ReadIs(contents: string, k: nat)
    requires var lines := Lines(contents);
      k <= |lines| && (forall j :: 0 <= j < k ==> TokenIn(lines[j]).None?) && (k < |lines| ==> TokenIn(lines[k]).Some?)
    ensures Read(contents) ==
      if k < |Lines(contents)| && TokenIn(Lines(contents)[k]) != Some("") then TokenIn(Lines(contents)[k]) else None
  {
    FirstTokenIs(Lines(contents), k);
  }

  // ---------------------------------------------------------------- writing

  function TokenLine(token: string): string {
    SESSION_KEY + "=" + token
  }

  predicate HasToken(line: string) {
    TokenIn(line).Some?
  }

  /** The index of the first line `p` holds of, or the number of lines. */
  function FirstIndex(lines: seq<string>, p: string -> bool): (k: nat)
    ensures k <= |lines|
    ensures forall i :: 0 <= i < k ==> !p(lines[i])
    ensures k < |lines| ==> p(lines[k])
  {
    if lines == [] || p(lines[0]) then 0 else 1 + FirstIndex(lines[1..], p)
  }

  /** The lines of a rewrite: the first line `p` holds of replaced by `entry`, or
      `entry` added as a last one. */
  function Replaced(lines: seq<string>, p: string -> bool, entry: string): seq<string> {
    var k := FirstIndex(lines, p);
    if k < |lines| then lines[..k] + [entry] + lines[k + 1..] else lines + [entry]
  }

  /** What a rewrite does to the lines of the file. */
  function WithToken(lines: seq<string>, token: string): seq<string> {
    Replaced(lines, HasToken, TokenLine(token))
  }

  function Join(lines: seq<string>): string {
    if lines == [] then ""
    else if |lines| == 1 then lines[0]
    else lines[0] + "\n" + Join(lines[1..])
  }

  function Rewritten(existing: string, token: string): string {
    Join(WithToken(Lines(existing), token)) + "\n"
  }

  /** The rewriter's pass over the lines. */
  method ReplaceFirst(existing: seq<string>, p: string -> bool, entry: string) returns (lines: seq<string>)
    ensures lines == Replaced(existing, p, entry)
  {
    ghost var k := FirstIndex(existing, p);
    var replaced := false;
    lines := [];
    for i := 0 to |existing|
      invariant replaced == (k < i)
      invariant lines == if replaced then existing[..k] + [entry] + existing[k + 1..i] else existing[..i]
    {
      if p(existing[i]) && !replaced {
        replaced := true;
        lines := lines + [entry];
      } else {
        lines := lines + [existing[i]];
      }
    }
    if !replaced {
      lines := lines + [entry];
    }
  }

  /** A file on the disk, and whether its text is sure to be there after a power cut. */
  datatype Entry = Gone | There(text: string, synced: bool)

  /** What may be found in its place when the clerk, or the machine, comes back up: of a text
      not synced any part. */
  predicate MayFind(e: Entry, found: Option<string>) {
    match e
    case Gone => found.None?
    case There(text, synced) => found.Some? && found.value <= text && (synced ==> found.value == text)
  }

  /** Whatever is found there is the old contents or the new. */
  ghost predicate OldOrNew(e: Entry, before: Option<string>, after: string) {
    forall found :: MayFind(e, found) ==> found == before || found == Some(after)
  }

  function OnDisk(contents: Option<string>): Entry {
    match contents
    case None => Gone
    case Some(text) => There(text, true)
  }

  /** How far a rewrite gets before something fails, if anything does. */
  datatype Reach = NotCreated | Part(written: nat) | NotSynced | NotRenamed | Renamed

  /** The file itself. `None` is a file that is not there. */
  class SessionFile {
    var contents: Option<string>
    var temp: Entry                  // the temporary file beside it
    ghost var moments: seq<Entry>    // the file itself, after every operation on the disk

    constructor (contents: Option<string>)
      ensures this.contents == contents
    {
      this.contents, temp, moments := contents, Gone, [];
    }

    /** A rewrite: `readable` says whether the old contents could be read at that moment,
        `reach` how far it got, and `removed` whether a temporary file left behind could be
        removed. Either the whole new contents are there afterwards or the old ones are
        untouched, and so it is if the clerk is killed, or the power cut, on the way. */
    method Write(token: string, readable: bool, reach: Reach, removed: bool) returns (ok: bool)
      modifies this
      ensures ok == reach.Renamed?
      ensures var after := Rewritten(if readable && old(contents).Some? then old(contents).value else "", token);
        && contents == (if ok then Some(after) else old(contents))
        && old(moments) <= moments
        && forall i :: |old(moments)| <= i < |moments| ==> OldOrNew(moments[i], old(contents), after)
      ensures ok || removed ==> temp.Gone?
    {
      var existing := if readable && contents.Some? then contents.value else "";
      var lines := ReplaceFirst(Lines(existing), HasToken, TokenLine(token));
      ok := PutInPlace(Join(lines) + "\n", reach);
      if !ok && removed {
        temp := Gone;
      }
    }

    /** By way of a temporary file: created, written, synced, renamed over the other. */
    method PutInPlace(after: string, reach: Reach) returns (ok: bool)
      modifies this
      ensures ok == reach.Renamed?
      ensures contents == (if ok then Some(after) else old(contents))
      ensures old(moments) <= moments
      ensures forall i :: |old(moments)| <= i < |moments| ==> OldOrNew(moments[i], old(contents), after)
      ensures ok ==> temp.Gone?
    {
      moments := moments + [OnDisk(contents)];
      if reach.NotCreated? {
        return false;
      }
      temp := There("", false);
      moments := moments + [OnDisk(contents)];
      if reach.Part? {
        temp := There(after[..if reach.written < |after| then reach.written else |after|], false);
        return false;
      }
      temp := There(after, false);
      moments := moments + [OnDisk(contents)];
      if reach.NotSynced? {
        return false;
      }
      temp := There(after, true);
      moments := moments + [OnDisk(contents)];
      if reach.NotRenamed? {
        return false;
      }
      moments := moments + [temp];
      contents, temp := Some(temp.text), Gone;
      return true;
    }
  }

  // ---------------------------------------------------------------- what a rewrite reads as

  /** A token that stands for itself on a line. Checkable before the write. */
  predicate Plain(token: string) {
    token != "" && '\n' !in token && Trimmed(token) && Unquote(token) == token
  }

  function DropReturns(lines: seq<string>): (r: seq<string>)
    ensures |r| == |lines|
    ensures forall i :: 0 <= i < |r| ==> r[i] == DropCarriageReturn(lines[i])
  {
    seq(|lines|, i requires 0 <= i < |lines| => DropCarriageReturn(lines[i]))
  }

  predicate FeedFree(lines: seq<string>) {
    forall i :: 0 <= i < |lines| ==> '\n' !in lines[i]
  }

  /** Joined lines split back into themselves, but for one carriage return each. */
  lemma {:induction false} LinesOfJoin(lines: seq<string>)
    requires FeedFree(lines) && lines != []
    ensures Lines(Join(lines) + "\n") == DropReturns(lines)
  {
    if |lines| == 1 {
      LineThenFeed(lines[0]);
    } else {
      var first, rest := lines[0], lines[1..];
      LinesOfJoin(rest);
      FirstLine(first, Join(rest) + "\n");
      Regroup(first + "\n", Join(rest), "\n");
      assert DropReturns(lines) == [DropCarriageReturn(first)] + DropReturns(rest);
    }
  }

  /** Line by line, what a rewrite holds. */
  lemma ReplacedAt(lines: seq<string>, p: string -> bool, entry: string)
    ensures var k, after := FirstIndex(lines, p), Replaced(lines, p, entry);
      && |after| == (if k < |lines| then |lines| else |lines| + 1)
      && forall i :: 0 <= i < |after| ==> after[i] == if i == k then entry else lines[i]
  {
  }

  /** A rewrite, read line by line. */
  lemma LinesOfRewritten(existing: string, token: string)
    requires '\n' !in token
    ensures Lines(Rewritten(existing, token)) == DropReturns(WithToken(Lines(existing), token))
  {
    LinesAreLines(existing);
    assert '\n' !in TokenLine(token);
    ReplacedAt(Lines(existing), HasToken, TokenLine(token));
    LinesOfJoin(WithToken(Lines(existing), token));
  }

  lemma {:induction false} DropReturnTrims(line: string)
    ensures Trim(DropCarriageReturn(line)) == Trim(line)
  {
    var d := DropCarriageReturn(line);
    if d != line {
      assert line == d + "\r";
      TrimStartThenReturn(d);
    }
  }

  lemma {:induction false} TrimStartThenReturn(d: string)
    ensures TrimEnd(TrimStart(d + "\r")) == TrimEnd(TrimStart(d))
  {
    if d != "" && IsWhite(d[0]) {
      assert (d + "\r")[1..] == d[1..] + "\r";
      TrimStartThenReturn(d[1..]);
    } else if d == "" {
      assert (d + "\r")[1..] == "";
      assert TrimStart(d + "\r") == TrimStart("");
    } else {
      assert TrimStart(d + "\r") == d + "\r";
      assert (d + "\r")[..|d|] == d;
    }
  }

  lemma {:induction false} TrimEndAfter(p: string, t: string)
    requires p != "" && !IsWhite(p[|p| - 1])
    ensures TrimEnd(p + t) == p + TrimEnd(t)
  {
    var s := p + t;
    if t != "" && IsWhite(t[|t| - 1]) {
      assert s[..|s| - 1] == p + t[..|t| - 1];
      TrimEndAfter(p, t[..|t| - 1]);
    }
  }

  lemma TokenLineTrims(token: string)
    ensures Trim(TokenLine(token)) == TokenLine(TrimEnd(token))
  {
    var p := SESSION_KEY + "=";
    assert TokenLine(token) == p + token && p[0] == 'T';
    assert TrimStart(p + token) == p + token;
    TrimEndAfter(p, token);
  }

  lemma AssignmentReads(line: string, value: string)
    requires Trim(line) == TokenLine(value)
    ensures TokenIn(line) == Some(Unquote(Trim(value)))
  {
    var l, rest := Trim(line), "=" + value;
    assert l == SESSION_KEY + rest;
    assert l[0] == 'T' && !("export " <= l);
    assert l[|SESSION_KEY|..] == rest && TrimStart(rest) == rest && rest[1..] == value;
  }

  /** What the reader makes of the line the writer wrote. */
  lemma TokenLineReads(token: string)
    ensures TokenIn(TokenLine(token)) == Some(Unquote(Trim(TrimEnd(token))))
  {
    TokenLineTrims(token);
    AssignmentReads(TokenLine(token), TrimEnd(token));
  }

  lemma UnquoteShrinks(value: string)
    ensures |Unquote(value)| <= |value|
    ensures |Unquote(value)| == |value| ==> Unquote(value) == value
  {
  }

  lemma TokenLineReadsBack(token: string)
    ensures Unquote(Trim(TrimEnd(token))) == token <==> Trimmed(token) && Unquote(token) == token
  {
    TrimEndIsPrefix(token);
    TrimFacts(TrimEnd(token));
    UnquoteShrinks(Trim(TrimEnd(token)));
    if Trimmed(token) {
      TrimFacts(token);
    }
  }

  lemma FirstTokenOfRewritten(lines: seq<string>, token: string)
    ensures FirstToken(DropReturns(WithToken(lines, token))) == TokenIn(TokenLine(token))
  {
    ReplacedAt(lines, HasToken, TokenLine(token));
    TokenLineReads(token);
    FirstTokenOf(DropReturns(WithToken(lines, token)), WithToken(lines, token), FirstIndex(lines, HasToken));
  }

  lemma FirstTokenOf(dropped: seq<string>, lines: seq<string>, k: nat)
    requires dropped == DropReturns(lines)
    requires k < |lines| && HasToken(lines[k])
    requires forall i :: 0 <= i < k ==> !HasToken(lines[i])
    ensures FirstToken(dropped) == TokenIn(lines[k])
  {
    forall i | 0 <= i <= k
      ensures TokenIn(dropped[i]) == TokenIn(lines[i])
    {
      DropReturnTrims(lines[i]);
    }
    FirstTokenAt(dropped, k);
  }

  lemma {:induction false} FirstTokenAt(lines: seq<string>, k: nat)
    requires k < |lines| && TokenIn(lines[k]).Some?
    requires forall i :: 0 <= i < k ==> TokenIn(lines[i]).None?
    ensures FirstToken(lines) == TokenIn(lines[k])
  {
    if k > 0 {
      FirstTokenAt(lines[1..], k - 1);
    }
  }

  lemma UnquotedChars(value: string)
    ensures forall c :: c in Unquote(value) ==> c in value
  {
  }

  lemma TokenHasNoFeed(line: string)
    requires '\n' !in line && TokenIn(line).Some?
    ensures '\n' !in TokenIn(line).value
  {
    var l := Trim(line);
    TrimFacts(line);
    assert '\n' !in l;
    var assignment := if "export " <= l then TrimStart(l[|"export "|..]) else l;
    if "export " <= l {
      TrimStartIsSuffix(l[|"export "|..]);
    }
    assert '\n' !in assignment;
    var rest := assignment[|SESSION_KEY|..];
    TrimStartIsSuffix(rest);
    var value := TrimStart(rest)[1..];
    TrimFacts(value);
    UnquotedChars(Trim(value));
  }

  lemma {:induction false} FirstTokenHasNoFeed(lines: seq<string>)
    requires FeedFree(lines) && FirstToken(lines).Some?
    ensures '\n' !in FirstToken(lines).value
  {
    if TokenIn(lines[0]).Some? {
      TokenHasNoFeed(lines[0]);
    } else {
      FirstTokenHasNoFeed(lines[1..]);
    }
  }

  /** Over every old contents, the token written is the token read exactly when it
      is plain: not empty, one line, without white space at an end or a pair of
      quotes around it. */
  lemma WriteThenRead(existing: string, token: string)
    ensures Read(Rewritten(existing, token)) == Some(token) <==> Plain(token)
  {
    var after := Rewritten(existing, token);
    if '\n' in token {
      LinesAreLines(after);
      if FirstToken(Lines(after)).Some? {
        FirstTokenHasNoFeed(Lines(after));
      }
    } else {
      LinesOfRewritten(existing, token);
      FirstTokenOfRewritten(Lines(existing), token);
      TokenLineReads(token);
      TokenLineReadsBack(token);
    }
  }

  // ---------------------------------------------------------------- what a rewrite keeps

  /** No line but the first token line ends in a carriage return of its own. */
  predicate NoStrayReturns(lines: seq<string>) {
    forall i :: 0 <= i < |lines| && i != FirstIndex(lines, HasToken) ==> DropCarriageReturn(lines[i]) == lines[i]
  }

  lemma ReplacedWithoutReturns(lines: seq<string>, entry: string)
    requires DropCarriageReturn(entry) == entry
    ensures DropReturns(Replaced(lines, HasToken, entry)) == Replaced(lines, HasToken, entry) <==> NoStrayReturns(lines)
  {
    var k, after := FirstIndex(lines, HasToken), Replaced(lines, HasToken, entry);
    ReplacedAt(lines, HasToken, entry);
    forall i | 0 <= i < |lines| && i != k && DropReturns(after) == after
      ensures DropCarriageReturn(lines[i]) == lines[i]
    {
      assert DropReturns(after)[i] == after[i];
    }
  }

  /** Every other line survives the rewrite, in order, exactly when none of them
      carries a stray carriage return. */
  lemma OtherLinesSurvive(existing: string, token: string)
    requires Plain(token)
    ensures Lines(Rewritten(existing, token)) == WithToken(Lines(existing), token)
       <==> NoStrayReturns(Lines(existing))
  {
    LinesOfRewritten(existing, token);
    var entry := TokenLine(token);
    assert entry[|entry| - 1] == token[|token| - 1];
    ReplacedWithoutReturns(Lines(existing), entry);
  }

  lemma NoTokenThere(line: string)
    requires Trim(line) != "" && Trim(line)[0] != 'T' && !("export " <= Trim(line))
    ensures !HasToken(line)
  {
    assert SESSION_KEY[0] == 'T';
  }

  /** And it can be that one does: a last line with a carriage return of its own loses it. */
  lemma StrayReturnIsLost(token: string)
    requires Plain(token)
    ensures !NoStrayReturns(Lines("a\r")) && Lines(Rewritten("a\r", token)) != WithToken(Lines("a\r"), token)
  {
    var existing := "a\r";
    OneLine(existing);
    assert Trim(existing) == "a" by {
      assert existing[..1] == "a";
      assert TrimStart(existing) == existing && TrimEnd(existing) == TrimEnd("a");
    }
    NoTokenThere(existing);
    assert DropCarriageReturn(existing) != existing;
    OtherLinesSurvive(existing, token);
  }

  lemma ReplacedTwice(lines: seq<string>, p: string -> bool, first: string, second: string)
    requires p(first)
    ensures Replaced(Replaced(lines, p, first), p, second) == Replaced(lines, p, second)
  {
    var k, once := FirstIndex(lines, p), Replaced(lines, p, first);
    ReplacedAt(lines, p, first);
    FirstIndexIs(once, p, k);
  }

  lemma FirstIndexIs(lines: seq<string>, p: string -> bool, k: nat)
    requires k < |lines| && p(lines[k])
    requires forall i :: 0 <= i < k ==> !p(lines[i])
    ensures FirstIndex(lines, p) == k
  {
  }

  /** A second rewrite replaces the first and nothing else. */
  lemma SecondWriteReplacesFirst(existing: string, first: string, second: string)
    requires Plain(first) && NoStrayReturns(Lines(existing))
    ensures Rewritten(Rewritten(existing, first), second) == Rewritten(existing, second)
  {
    OtherLinesSurvive(existing, first);
    TokenLineReads(first);
    ReplacedTwice(Lines(existing), HasToken, TokenLine(first), TokenLine(second));
  }
}

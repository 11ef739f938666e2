/** Text as the clerk reads it: a string is a sequence of Unicode scalar values,
    and trimming, line splitting and word splitting follow Rust's standard
    library (`str::trim`, `str::lines`, `str::split_whitespace`). */
module Strings {

  datatype Option<+T> = None | Some(value: T)

  /** Unicode's White_Space property, which `char::is_whitespace` tests. */
  predicate IsWhite(c: char) {
    || '\U{0009}' <= c <= '\U{000D}'
    || c == ' '
    || c == '\U{0085}'
    || c == '\U{00A0}'
    || c == '\U{1680}'
    || '\U{2000}' <= c <= '\U{200A}'
    || c == '\U{2028}'
    || c == '\U{2029}'
    || c == '\U{202F}'
    || c == '\U{205F}'
    || c == '\U{3000}'
  }

  function TrimStart(s: string): string {
    if s != "" && IsWhite(s[0]) then TrimStart(s[1..]) else s
  }

  function TrimEnd(s: string): string {
    if s != "" && IsWhite(s[|s| - 1]) then TrimEnd(s[..|s| - 1]) else s
  }

  function Trim(s: string): string {
    TrimEnd(TrimStart(s))
  }

  /** No white space at either end. */
  predicate Trimmed(s: string) {
    s == "" || (!IsWhite(s[0]) && !IsWhite(s[|s| - 1]))
  }

  predicate AllWhite(s: string) {
    forall i :: 0 <= i < |s| ==> IsWhite(s[i])
  }

  /** No white space anywhere. */
  predicate Solid(s: string) {
    forall i :: 0 <= i < |s| ==> !IsWhite(s[i])
  }

  lemma {:induction false} TrimStartIsSuffix(s: string)
    ensures exists k :: 0 <= k <= |s| && TrimStart(s) == s[k..]
    ensures TrimStart(s) != "" ==> !IsWhite(TrimStart(s)[0])
  {
    if s != "" && IsWhite(s[0]) {
      TrimStartIsSuffix(s[1..]);
      var k :| 0 <= k <= |s[1..]| && TrimStart(s[1..]) == s[1..][k..];
      assert s[1..][k..] == s[k + 1..];
    } else {
      assert s[0..] == s;
    }
  }

  lemma {:induction false} TrimEndIsPrefix(s: string)
    ensures exists k :: 0 <= k <= |s| && TrimEnd(s) == s[..k]
    ensures TrimEnd(s) != "" ==> !IsWhite(TrimEnd(s)[|TrimEnd(s)| - 1])
  {
    if s != "" && IsWhite(s[|s| - 1]) {
      var t := s[..|s| - 1];
      TrimEndIsPrefix(t);
      var k :| 0 <= k <= |t| && TrimEnd(t) == t[..k];
      assert t[..k] == s[..k];
    } else {
      assert s[..|s|] == s;
    }
  }

  /** Trimming never lengthens, leaves a trimmed string, and moves nothing
      exactly when there was nothing to trim. */
  lemma TrimFacts(s: string)
    ensures |Trim(s)| <= |s|
    ensures Trimmed(Trim(s))
    ensures Trim(s) == s <==> Trimmed(s)
    ensures |Trim(s)| == |s| ==> Trim(s) == s
    ensures forall i :: 0 <= i < |Trim(s)| ==> Trim(s)[i] in s
  {
    TrimStartIsSuffix(s);
    var a := TrimStart(s);
    TrimEndIsPrefix(a);
    if Trimmed(s) {
      assert a == s;
    }
  }

  /** What trimming leaves is what stands between white space. */
  lemma {:induction false} TrimStartIs(before: string, s: string)
    requires AllWhite(before) && (s == "" || !IsWhite(s[0]))
    ensures TrimStart(before + s) == s
    decreases |before|
  {
    if before == "" {
      assert before + s == s;
    } else {
      assert (before + s)[1..] == before[1..] + s;
      TrimStartIs(before[1..], s);
    }
  }

  lemma {:induction false} GapBefore(s: string) returns (gap: string)
    ensures AllWhite(gap) && s == gap + TrimStart(s)
  {
    if s != "" && IsWhite(s[0]) {
      var first := s[..1];
      var more := GapBefore(s[1..]);
      gap := first + more;
      assert s == first + s[1..] && AllWhite(first);
      Regroup(first, more, TrimStart(s[1..]));
    } else {
      gap := "";
    }
  }

  lemma {:induction false} TrimEndIs(s: string, after: string)
    requires AllWhite(after) && (s == "" || !IsWhite(s[|s| - 1]))
    ensures TrimEnd(s + after) == s
    decreases |after|
  {
    if after == "" {
      assert s + after == s;
    } else {
      var u := s + after;
      assert u[..|u| - 1] == s + after[..|after| - 1];
      TrimEndIs(s, after[..|after| - 1]);
    }
  }

  lemma TrimIs(before: string, s: string, after: string)
    requires AllWhite(before) && AllWhite(after) && Trimmed(s)
    ensures Trim(before + s + after) == s
  {
    if s == "" {
      TrimStartIs(before + after, "");
      assert before + s + after == before + after + "";
    } else {
      assert before + s + after == before + (s + after);
      TrimStartIs(before, s + after);
      TrimEndIs(s, after);
    }
  }

  // ---------------------------------------------------------------- lines

  function IndexOf(s: string, c: char): (k: nat)
    ensures k <= |s|
    ensures forall i :: 0 <= i < k ==> s[i] != c
    ensures k < |s| ==> s[k] == c
  {
    if s == "" || s[0] == c then 0 else 1 + IndexOf(s[1..], c)
  }

  lemma IndexIs(s: string, c: char, k: nat)
    requires k <= |s|
    requires forall i :: 0 <= i < k ==> s[i] != c
    requires k < |s| ==> s[k] == c
    ensures IndexOf(s, c) == k
  {
  }

  function DropCarriageReturn(line: string): string {
    if line != "" && line[|line| - 1] == '\r' then line[..|line| - 1] else line
  }

  /** `str::lines`: the pieces between line feeds, each without the carriage
      return that came just before its line feed; a last piece that no line feed
      ends is kept as it is, and an empty one is no line. */
  function Lines(s: string): seq<string>
    decreases |s|
  {
    if s == "" then []
    else
      var k := IndexOf(s, '\n');
      if k == |s| then [s] else [DropCarriageReturn(s[..k])] + Lines(s[k + 1..])
  }

  /** The first line, and the rest. */
  lemma FirstLine(line: string, rest: string)
    requires '\n' !in line
    ensures Lines(line + "\n" + rest) == [DropCarriageReturn(line)] + Lines(rest)
  {
    FirstLineFeed(line, rest);
    var u := line + "\n" + rest;
    assert u[..|line|] == line && u[|line| + 1..] == rest;
  }

  lemma Regroup<T>(a: seq<T>, b: seq<T>, c: seq<T>)
    ensures a + b + c == a + (b + c)
  {
  }

  /** A line ends at its line feed, or at the carriage return just before it. */
  lemma LineEndings(line: string, rest: string)
    requires '\n' !in line
    ensures Lines(line + "\r" + "\n" + rest) == [line] + Lines(rest)
    ensures line == "" || line[|line| - 1] != '\r' ==> Lines(line + "\n" + rest) == [line] + Lines(rest)
  {
    FirstLine(line, rest);
    FirstLine(line + "\r", rest);
    ReturnGoes(line);
  }

  lemma ReturnGoes(line: string)
    ensures DropCarriageReturn(line + "\r") == line
  {
    assert (line + "\r")[..|line|] == line;
  }

  /** A line feed ends a line: what follows it is split on its own. */
  lemma {:induction false} LinesAppend(s: string, t: string)
    ensures Lines(s + "\n" + t) == Lines(s + "\n") + Lines(t)
    decreases |s|
  {
    var feed := "\n";
    if '\n' in s {
      var k := IndexOf(s, '\n');
      var line, rest := s[..k], s[k + 1..];
      assert s == line + feed + rest;
      LinesAppend(rest, t);
      FirstLine(line, rest + feed + t);
      FirstLine(line, rest + feed);
      Regroup(line + feed, rest, feed);
      Regroup(line + feed, rest + feed, t);
      Regroup([DropCarriageReturn(line)], Lines(rest + feed), Lines(t));
    } else {
      FirstLine(s, t);
      FirstLine(s, "");
      assert s + feed + "" == s + feed;
    }
  }

  lemma FirstLineFeed(s: string, t: string)
    requires '\n' !in s
    ensures IndexOf(s + "\n" + t, '\n') == |s|
  {
    IndexIs(s + "\n" + t, '\n', |s|);
  }

  lemma OneLine(s: string)
    requires '\n' !in s && s != ""
    ensures Lines(s) == [s]
  {
    IndexIs(s, '\n', |s|);
  }

  lemma LineThenFeed(s: string)
    requires '\n' !in s
    ensures Lines(s + "\n") == [DropCarriageReturn(s)]
  {
    FirstLineFeed(s, "");
    var u := s + "\n";
    assert s + "\n" + "" == u;
    assert u[..|s|] == s && u[|s| + 1..] == "";
    assert Lines("") == [];
    assert Lines(u) == [DropCarriageReturn(u[..|s|])] + Lines(u[|s| + 1..]);
  }

  lemma NoFeedBefore(s: string)
    ensures '\n' !in s[..IndexOf(s, '\n')] && '\n' !in DropCarriageReturn(s[..IndexOf(s, '\n')])
  {
  }

  /** No line holds a line feed. */
  lemma {:induction false} LinesAreLines(s: string)
    ensures forall i :: 0 <= i < |Lines(s)| ==> '\n' !in Lines(s)[i]
    decreases |s|
  {
    if s != "" {
      var k := IndexOf(s, '\n');
      NoFeedBefore(s);
      if k < |s| {
        LinesAreLines(s[k + 1..]);
        assert Lines(s) == [DropCarriageReturn(s[..k])] + Lines(s[k + 1..]);
      } else {
        assert s[..k] == s && Lines(s) == [s];
      }
    }
  }

  // ---------------------------------------------------------------- words

  /** `split_whitespace().next()`, and what is left after it. */
  function NextWord(s: string): (r: Option<(string, string)>)
    ensures r.Some? ==> Solid(r.value.0) && r.value.0 != ""
  {
    var t := TrimStart(s);
    if t == "" then None
    else
      var k := WordEnd(t);
      TrimStartIsSuffix(s);
      Some((t[..k], t[k..]))
  }

  function WordEnd(s: string): (k: nat)
    ensures k <= |s|
    ensures forall i :: 0 <= i < k ==> !IsWhite(s[i])
    ensures k < |s| ==> IsWhite(s[k])
    ensures s != "" && !IsWhite(s[0]) ==> k > 0
  {
    if s == "" || IsWhite(s[0]) then 0 else 1 + WordEnd(s[1..])
  }

  lemma WordEndIs(s: string, k: nat)
    requires k <= |s|
    requires forall i :: 0 <= i < k ==> !IsWhite(s[i])
    requires k < |s| ==> IsWhite(s[k])
    ensures WordEnd(s) == k
  {
  }

  lemma WordThen(w: string, rest: string)
    requires w != "" && Solid(w)
    requires rest == "" || IsWhite(rest[0])
    ensures NextWord(w + rest) == Some((w, rest))
  {
    var s := w + rest;
    assert s[0] == w[0];
    assert TrimStart(s) == s;
    WordEndIs(s, |w|);
    assert s[..|w|] == w && s[|w|..] == rest;
  }

  lemma WordAfterBlank(w: string, rest: string)
    requires w != "" && Solid(w)
    requires rest == "" || IsWhite(rest[0])
    ensures NextWord(" " + (w + rest)) == Some((w, rest))
  {
    var s := " " + (w + rest);
    assert s[1..] == w + rest;
    assert TrimStart(s) == TrimStart(w + rest);
    WordThen(w, rest);
  }

  /** The next word is what stands after white space, up to the next. */
  lemma NextWordIs(gap: string, w: string, rest: string)
    requires AllWhite(gap) && w != "" && Solid(w) && (rest == "" || IsWhite(rest[0]))
    ensures NextWord(gap + (w + rest)) == Some((w, rest))
  {
    var t := w + rest;
    assert t[0] == w[0];
    TrimStartIs(gap, t);
    WordThen(w, rest);
    assert TrimStart(t) == t;
  }

  lemma NoWordIs(gap: string)
    requires AllWhite(gap)
    ensures NextWord(gap).None?
  {
    TrimStartIs(gap, "");
    assert gap + "" == gap;
  }

  /** `strip_prefix`. */
  function StripPrefix(s: string, prefix: string): Option<string> {
    if prefix <= s then Some(s[|prefix|..]) else None
  }

  lemma StripsItsPrefix(prefix: string, s: string)
    ensures StripPrefix(prefix + s, prefix) == Some(s)
  {
    assert (prefix + s)[|prefix|..] == s;
  }
}

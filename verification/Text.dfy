/** The string functions the wire and the cache file rely on. */
module Text {

  /** char::is_whitespace. */
  predicate IsSpace(c: char) {
    || '\U{0009}' <= c <= '\U{000D}' || c == ' ' || c == '\U{0085}' || c == '\U{00A0}' || c == '\U{1680}'
    || '\U{2000}' <= c <= '\U{200A}' || c == '\U{2028}' || c == '\U{2029}' || c == '\U{202F}' || c == '\U{205F}'
    || c == '\U{3000}'
  }

  function TrimStart(s: string): (r: string)
    ensures |r| <= |s| && s[|s| - |r|..] == r
    ensures r != "" ==> !IsSpace(r[0])
  {
    if s != "" && IsSpace(s[0]) then TrimStart(s[1..]) else s
  }

  function TrimEnd(s: string): (r: string)
    ensures r <= s
    ensures r != "" ==> !IsSpace(r[|r| - 1])
  {
    if s != "" && IsSpace(s[|s| - 1]) then TrimEnd(s[..|s| - 1]) else s
  }

  /** str::trim. */
  function Trim(s: string): (r: string)
    ensures r != "" ==> !IsSpace(r[0]) && !IsSpace(r[|r| - 1])
  {
    TrimEnd(TrimStart(s))
  }

  /** Text without outer whitespace trims to itself. */
  lemma TrimNothing(s: string)
    requires s != "" ==> !IsSpace(s[0]) && !IsSpace(s[|s| - 1])
    ensures Trim(s) == s
  {
  }

  lemma TrimTwice(s: string)
    ensures Trim(Trim(s)) == Trim(s)
  {
    TrimNothing(Trim(s));
  }

  /** Position of the first `c`, the length if there is none. */
  function IndexOf(s: string, c: char): (k: nat)
    ensures k <= |s| && c !in s[..k] && (k < |s| ==> s[k] == c)
  {
    if s == "" || s[0] == c then 0
    else
      var k := 1 + IndexOf(s[1..], c);
      assert s[..k] == [s[0]] + s[1..][..k - 1];
      k
  }

  /** The first occurrence is the only one with none before it. */
  lemma IndexIs(s: string, c: char, k: nat)
    requires k <= |s| && c !in s[..k] && (k < |s| ==> s[k] == c)
    ensures IndexOf(s, c) == k
  {
  }

  /** The newline-terminated lines of a stream, terminators included. */
  function CompleteLines(s: string): seq<string>
    decreases |s|
  {
    var k := IndexOf(s, '\n');
    if k == |s| then [] else [s[..k + 1]] + CompleteLines(s[k + 1..])
  }

  /** What follows the last newline. */
  function Unfinished(s: string): string
    decreases |s|
  {
    var k := IndexOf(s, '\n');
    if k == |s| then s else Unfinished(s[k + 1..])
  }

  /** One read: text without a newline, or with one at its very end. */
  predicate IsRead(r: string) {
    r == "" || '\n' !in r[..|r| - 1]
  }

  predicate EndsLine(r: string) {
    r != "" && r[|r| - 1] == '\n'
  }

  lemma FirstLine(s: string, k: nat)
    requires k < |s| && s[k] == '\n' && '\n' !in s[..k]
    ensures CompleteLines(s) == [s[..k + 1]] + CompleteLines(s[k + 1..]) && Unfinished(s) == Unfinished(s[k + 1..])
  {
    IndexIs(s, '\n', k);
  }

  /** Reading on extends the last line, and completes it if the read ends in a newline. */
  lemma {:induction false} ReadOn(s: string, r: string)
    requires IsRead(r)
    ensures CompleteLines(s + r) == CompleteLines(s) + if EndsLine(r) then [Unfinished(s) + r] else []
    ensures Unfinished(s + r) == if EndsLine(r) then "" else Unfinished(s) + r
    decreases |s|
  {
    var k := IndexOf(s, '\n');
    if k < |s| {
      ReadOn(s[k + 1..], r);
      FirstLine(s, k);
      FirstLineStays(s, r, k);
    } else if EndsLine(r) {
      LastOnly(s, r);
    } else {
      assert r != "" ==> r == r[..|r| - 1] + [r[|r| - 1]];
      IndexIs(s + r, '\n', |s + r|);
    }
  }

  lemma FirstLineStays(s: string, r: string, k: nat)
    requires k < |s| && s[k] == '\n' && '\n' !in s[..k]
    ensures CompleteLines(s + r) == [s[..k + 1]] + CompleteLines(s[k + 1..] + r)
    ensures Unfinished(s + r) == Unfinished(s[k + 1..] + r)
  {
    assert (s + r)[..k] == s[..k] && (s + r)[k + 1..] == s[k + 1..] + r && (s + r)[..k + 1] == s[..k + 1];
    FirstLine(s + r, k);
  }

  lemma LastOnly(s: string, r: string)
    requires '\n' !in s && IsRead(r) && EndsLine(r)
    ensures CompleteLines(s + r) == [s + r] && Unfinished(s + r) == ""
  {
    var t := s + r;
    assert t[..|t| - 1] == s + r[..|r| - 1];
    IndexIs(t, '\n', |t| - 1);
    assert t[|t|..] == "" && t[..|t|] == t;
    assert CompleteLines("") == [] && Unfinished("") == "";
  }

  function StripCr(s: string): string {
    if s != "" && s[|s| - 1] == '\r' then s[..|s| - 1] else s
  }

  /** str::lines: a final unterminated line counts, an empty one does not, and a CR before a newline goes with it. */
  function Lines(s: string): seq<string>
    decreases |s|
  {
    var k := IndexOf(s, '\n');
    if k < |s| then [StripCr(s[..k])] + Lines(s[k + 1..])
    else if s == "" then []
    else [s]
  }

  lemma LinesCons(line: string, rest: string)
    requires '\n' !in line && (line != "" ==> line[|line| - 1] != '\r')
    ensures Lines(line + "\n" + rest) == [line] + Lines(rest)
  {
    var s := line + "\n" + rest;
    assert s[..|line|] == line && s[|line| + 1..] == rest;
    IndexIs(s, '\n', |line|);
  }

  /** A carriage return before the newline is not part of the line. */
  lemma LinesConsCr(line: string, rest: string)
    requires '\n' !in line
    ensures Lines(line + "\r\n" + rest) == [line] + Lines(rest)
  {
    var s := line + "\r\n" + rest;
    assert s[..|line| + 1] == line + "\r" && s[|line| + 2..] == rest;
    IndexIs(s, '\n', |line| + 1);
    assert (line + "\r")[..|line|] == line;
  }

  lemma {:induction false} LinesHaveNoNewline(s: string)
    ensures forall l :: l in Lines(s) ==> '\n' !in l
    decreases |s|
  {
    var k := IndexOf(s, '\n');
    if k < |s| {
      LinesHaveNoNewline(s[k + 1..]);
    }
  }

  /** Trimming adds no characters. */
  lemma TrimKeepsOut(s: string, c: char)
    requires c !in s
    ensures c !in Trim(s)
  {
    hide TrimStart, TrimEnd;
    var t := TrimStart(s);
    assert c !in s[|s| - |t|..];
    assert TrimEnd(t) == t[..|TrimEnd(t)|];
  }

  lemma TrimOneAfter(s: string, c: char)
    requires s != "" && !IsSpace(s[0]) && !IsSpace(s[|s| - 1]) && IsSpace(c)
    ensures Trim(s + [c]) == s
  {
    hide IsSpace;
    assert (s + [c])[..|s|] == s;
    assert TrimStart(s + [c]) == s + [c];
    assert TrimEnd(s + [c]) == TrimEnd(s) == s;
  }

  lemma TrimOneBefore(s: string)
    requires s != "" && !IsSpace(s[0]) && !IsSpace(s[|s| - 1])
    ensures Trim(" " + s) == s
  {
    assert (" " + s)[1..] == s;
    assert TrimStart(" " + s) == TrimStart(s);
  }
}

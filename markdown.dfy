/**
 * The text clean-up the GitHub layer applies to descriptions and README
 * lines. Each regular-expression replacement of the source is written out as
 * the scan the regex engine performs: try a match at the current position,
 * replace it and continue after it, or keep one character and move on.
 */
module Markdown {
  import opened Wrappers
  import opened Text
  import Seqs

  function Repeat(c: char, n: nat): (r: string)
    ensures |r| == n && forall i :: 0 <= i < n ==> r[i] == c
  {
    seq(n, _ => c)
  }

  /**
   * `s.replace(/D{w}([^D]+)D{w}/g, '$1')` for one delimiter character `D`:
   * backticks (`D` = '`', w = 1), bold (`*`, 2) and italic (`*`, 1).
   * The greedy `[^D]+` ends at the first `D` after the opening run.
   */
  function Unwrap(s: string, d: char, w: nat): (r: string)
    requires 1 <= w
    ensures |r| <= |s|
    decreases |s|
  {
    if |s| < w then s
    else if s[..w] == Repeat(d, w) then
      var rest := s[w..];
      var j := IndexOf(rest, d);
      if 0 < j && j + w <= |rest| && rest[j..j + w] == Repeat(d, w) then
        rest[..j] + Unwrap(rest[j + w..], d, w)
      else
        [s[0]] + Unwrap(s[1..], d, w)
    else
      [s[0]] + Unwrap(s[1..], d, w)
  }

  /** `s.replace(/\[([^\]]+)\]\([^)]+\)/g, '$1')`: a markdown link becomes its text. */
  function Unlink(s: string): (r: string)
    ensures |r| <= |s|
    decreases |s|
  {
    if s == [] then s
    else if s[0] == '[' then
      var j := IndexOf(s[1..], ']') + 1;
      if 1 < j && j + 1 < |s| && s[j + 1] == '(' then
        var k := IndexOf(s[j + 2..], ')') + j + 2;
        if j + 2 < k && k < |s| then
          s[1..j] + Unlink(s[k + 1..])
        else
          [s[0]] + Unlink(s[1..])
      else
        [s[0]] + Unlink(s[1..])
    else
      [s[0]] + Unlink(s[1..])
  }

  /** Drops a leading run of `c`. */
  function DropRun(s: string, c: char): (r: string)
    ensures |r| <= |s| && r == s[|s| - |r|..]
    ensures s != [] && s[0] == c ==> |r| < |s|
  {
    if s != [] && s[0] == c then DropRun(s[1..], c) else s
  }

  // `s.replace(/^\s*#+\s*/, '')`: one leading heading marker.
  function StripLeadingHashes(s: string): (r: string)
    ensures |r| <= |s|
  {
    var t := TrimStart(s);
    if t != [] && t[0] == '#' then TrimStart(DropRun(t, '#')) else s
  }

  // `s.replace(/^\s*>\s*/, '')`: one leading block-quote marker.
  function StripLeadingQuote(s: string): (r: string)
    ensures |r| <= |s|
  {
    var t := TrimStart(s);
    if t != [] && t[0] == '>' then TrimStart(t[1..]) else s
  }

  // `s.replace(/#+\s*/g, '')`: every run of `#` together with the white space after it.
  function StripHeaderMarks(s: string): (r: string)
    ensures |r| <= |s|
    decreases |s|
  {
    if s == [] then s
    else if s[0] == '#' then StripHeaderMarks(TrimStart(DropRun(s, '#')))
    else [s[0]] + StripHeaderMarks(s[1..])
  }

  /** Links, inline code, bold and italic markers removed, then trimmed (a README line). */
  function CleanInline(s: string): (r: string)
    ensures |r| <= |s|
  {
    Trim(Unwrap(Unwrap(Unwrap(Unlink(s), '`', 1), '*', 2), '*', 1))
  }

  predicate IsSentenceEnd(c: char) {
    c == '.' || c == '!' || c == '?'
  }

  /** `s.split(/[.!?]+/)`: the pieces between runs of sentence punctuation. */
  function SplitSentences(s: string): (r: seq<string>)
    ensures |r| >= 1
    ensures r[0] == s[..Seqs.FirstIndex(s, IsSentenceEnd)]
    decreases |s|
  {
    var k := Seqs.FirstIndex(s, IsSentenceEnd);
    if k == |s| then [s]
    else
      var rest := s[k..];
      var m := Seqs.FirstIndex(rest, c => !IsSentenceEnd(c));
      [s[..k]] + SplitSentences(rest[m..])
  }

  /** `s.match(/[^.!?]*[.!?]/)?.[0]`: everything up to and including the first sentence end. */
  function FirstSentence(s: string): (r: Option<string>)
    ensures r.None? <==> forall i :: 0 <= i < |s| ==> !IsSentenceEnd(s[i])
    ensures r.Some? ==> exists k :: 0 <= k < |s| && r.value == s[..k + 1] && IsSentenceEnd(s[k])
                                    && forall i :: 0 <= i < k ==> !IsSentenceEnd(s[i])
  {
    var k := Seqs.FirstIndex(s, IsSentenceEnd);
    if k == |s| then None else Some(s[..k + 1])
  }

  /** `s.split('\n').filter(line => line.trim() !== '')`. */
  function ReadmeLines(text: string): seq<string> {
    Seqs.Filter(SplitOn(text, '\n'), (l: string) => Trim(l) != "")
  }

  /** The first line whose trimmed form `accept` admits, trimmed. */
  function FirstAccepted(lines: seq<string>, accept: string -> bool): (r: Option<string>)
    ensures r.None? <==> forall i :: 0 <= i < |lines| ==> !accept(Trim(lines[i]))
    ensures r.Some? ==> accept(r.value)
    ensures r.Some? ==> exists k :: 0 <= k < |lines| && r.value == Trim(lines[k])
                                    && forall i :: 0 <= i < k ==> !accept(Trim(lines[i]))
  {
    var k := Seqs.FirstIndex(lines, (l: string) => accept(Trim(l)));
    if k == |lines| then None else Some(Trim(lines[k]))
  }

  /**
   * The README scan loop: walk the lines, pass over the ones `accept` refuses,
   * stop at the first one it admits.
   */
  method ScanLines(lines: seq<string>, accept: string -> bool) returns (found: Option<string>)
    ensures found == FirstAccepted(lines, accept)
  {
    ghost var k := Seqs.FirstIndex(lines, (l: string) => accept(Trim(l)));
    found := None;
    var i := 0;
    while i < |lines|
      invariant i <= k
      invariant found == None
    {
      var trimmed := Trim(lines[i]);
      if accept(trimmed) {
        found := Some(trimmed);
        break;
      }
      i := i + 1;
    }
    assert found.Some? ==> i == k;
  }

  /** `s.substring(0, 200) + '...'` when `s` is longer than 200 characters, else `s`. */
  function Truncate200(s: string): (r: string)
    ensures |r| <= 203
    ensures |s| <= 200 ==> r == s
    ensures |s| > 200 ==> r == s[..200] + "..."
  {
    if |s| > 200 then s[..200] + "..." else s
  }
}

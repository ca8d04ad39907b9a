/** A hand-written matcher for the git-fetch status-line grammar

      ^ ([+t*! -]) +([^ ]+|\[[^\]]+\]) +([^ ]+) +-> +([^ ]+)(?: +(.+))?$

    shared by both parsers. Each repetition in the grammar is forced to be
    maximal by the character that must follow it, so the only choice is the
    alternation of the summary field: the plain word is tried first and the
    bracketed form only when the rest of the line fails after the word, as a
    backtracking engine does. The matcher consumes the line from the left. */
module FetchLine {
  import opened Wrappers

  /** The groups of a matching line: operation code, summary, source, destination. */
  datatype Fields = Fields(op: char, summary: string, from: string, to: string)

  /** The operation class `[+t*! -]`. It does not contain '='. */
  const OpChars: set<char> := {'+', 't', '*', '!', ' ', '-'}

  /** Length of the leading run of spaces. */
  function SpanSpaces(s: string): (n: nat)
    ensures n <= |s|
    ensures forall k :: 0 <= k < n ==> s[k] == ' '
    ensures n < |s| ==> s[n] != ' '
  {
    if s != [] && s[0] == ' ' then 1 + SpanSpaces(s[1..]) else 0
  }

  /** Length of the leading run of characters other than `c`: with a
      space, the extent of `[^ ]+`; with ']', of `[^\]]+`. */
  function SpanTo(s: string, c: char): (n: nat)
    ensures n <= |s|
    ensures forall k :: 0 <= k < n ==> s[k] != c
    ensures n < |s| ==> s[n] == c
  {
    if s != [] && s[0] != c then 1 + SpanTo(s[1..], c) else 0
  }

  /** What may follow the destination: nothing, or ` +(.+)` up to the end,
      where `.` is any character but a newline. */
  predicate ReasonOk(t: string) {
    t == [] || (|t| >= 2 && t[0] == ' ' && '\n' !in t)
  }

  /** Matches ` +([^ ]+) +-> +([^ ]+)(?: +(.+))?$`, giving the source and
      destination words. */
  function MatchTail(t: string): (m: Option<(string, string)>)
    ensures m.Some? ==> m.value.0 != [] && ' ' !in m.value.0
    ensures m.Some? ==> m.value.1 != [] && ' ' !in m.value.1
  {
    var a := SpanSpaces(t);
    var t1 := t[a..];
    var b := SpanTo(t1, ' ');
    var t2 := t1[b..];
    var c := SpanSpaces(t2);
    var t3 := t2[c..];
    if a == 0 || b == 0 || c == 0 || |t3| < 2 || t3[0] != '-' || t3[1] != '>' then None
    else
      var dest := MatchDestination(t3[2..]);
      if dest.None? then None else Some((t1[..b], dest.value))
  }

  /** Matches ` +([^ ]+)(?: +(.+))?$`, the part after the arrow. */
  function MatchDestination(t: string): (m: Option<string>)
    ensures m.Some? ==> m.value != [] && ' ' !in m.value
  {
    var d := SpanSpaces(t);
    var t1 := t[d..];
    var e := SpanTo(t1, ' ');
    if d == 0 || e == 0 || !ReasonOk(t1[e..]) then None
    else Some(t1[..e])
  }

  /** The whole line grammar. */
  function Match(s: string): (m: Option<Fields>)
    ensures m.Some? ==> |s| >= 2 && s[0] == ' ' && m.value.op == s[1] && m.value.op in OpChars
    ensures m.Some? ==> m.value.to != [] && ' ' !in m.value.to
  {
    if |s| < 2 || s[0] != ' ' || s[1] !in OpChars then None
    else
      var i := SpanSpaces(s[2..]);
      if i == 0 then None else MatchSummary(s[1], s[2..][i..])
  }

  /** The line after the operation code and its spaces: the summary, tried
      as a plain word first and as a bracketed phrase second, then the tail. */
  function MatchSummary(op: char, t: string): (m: Option<Fields>)
    ensures m.Some? ==> m.value.op == op && m.value.to != [] && ' ' !in m.value.to
  {
    var w := SpanTo(t, ' ');
    var word := if w > 0 then MatchTail(t[w..]) else None;
    if word.Some? then Some(Fields(op, t[..w], word.value.0, word.value.1))
    else if t != [] && t[0] == '[' then
      var k := SpanTo(t[1..], ']');
      if k == 0 || k == |t| - 1 then None
      else
        var bracket := MatchTail(t[k + 2..]);
        if bracket.Some? then Some(Fields(op, t[..k + 2], bracket.value.0, bracket.value.1))
        else None
    else None
  }

  // ---- Rendering a status line and matching it back ----

  /** A field value free of spaces. */
  predicate Word(w: string) {
    w != [] && ' ' !in w
  }

  /** A non-empty run of spaces, as git uses to align its columns. */
  predicate Blank(p: string) {
    p != [] && forall k :: 0 <= k < |p| ==> p[k] == ' '
  }

  /** A summary of the form `[...]` with no ']' inside, such as `[new branch]`. */
  predicate Bracketed(summary: string) {
    |summary| >= 3 && summary[0] == '[' && summary[|summary| - 1] == ']'
    && ']' !in summary[1..|summary| - 1]
  }

  /** The part of a status line after the summary (without a trailing reason). */
  function RenderTail(from: string, to: string, p2: string, p3: string, p4: string): string {
    p2 + (from + (p3 + ("->" + (p4 + to))))
  }

  /** A status line as git-fetch prints it (without a trailing reason). */
  function Render(op: char, summary: string, from: string, to: string,
                  p1: string, p2: string, p3: string, p4: string): string
  {
    [' ', op] + (p1 + (summary + RenderTail(from, to, p2, p3, p4)))
  }

  lemma SpanSpacesOf(p: string, rest: string)
    requires forall k :: 0 <= k < |p| ==> p[k] == ' '
    requires rest == [] || rest[0] != ' '
    ensures SpanSpaces(p + rest) == |p| && (p + rest)[|p|..] == rest
  {
  }

  lemma SpanWordOf(w: string, rest: string)
    requires ' ' !in w
    requires rest == [] || rest[0] == ' '
    ensures SpanTo(w + rest, ' ') == |w| && (w + rest)[..|w|] == w && (w + rest)[|w|..] == rest
  {
  }

  /** MatchDestination on padding and a word gives back the word. */
  lemma MatchDestinationRendered(p4: string, to: string)
    requires Blank(p4) && Word(to)
    ensures MatchDestination(p4 + to) == Some(to)
  {
    SpanSpacesOf(p4, to);
    SpanWordOf(to, []);
    assert to + [] == to;
  }

  /** MatchTail on a rendered tail gives back the source and destination. */
  lemma MatchTailRendered(from: string, to: string, p2: string, p3: string, p4: string)
    requires Blank(p2) && Blank(p3) && Blank(p4) && Word(from) && Word(to)
    ensures MatchTail(RenderTail(from, to, p2, p3, p4)) == Some((from, to))
  {
    var r4 := p4 + to;
    var r3 := "->" + r4;
    var r2 := p3 + r3;
    var r1 := from + r2;
    SpanSpacesOf(p2, r1);
    SpanWordOf(from, r2);
    SpanSpacesOf(p3, r3);
    assert r3[2..] == r4;
    MatchDestinationRendered(p4, to);
  }

  lemma DropConcat(x: string, y: string, n: nat)
    requires n <= |x|
    ensures (x + y)[n..] == x[n..] + y
  {
  }

  /** When the second word of the plain-word attempt ends the summary, the
      third field is the source, which is not "->" followed by a space. */
  lemma SourceIsNotArrow(from: string, to: string, p2: string, p3: string, p4: string)
    requires Blank(p2) && Blank(p3) && Blank(p4) && Word(from) && Word(to) && from != "->"
    ensures var tail := RenderTail(from, to, p2, p3, p4);
            var t3 := tail[SpanSpaces(tail)..];
            !(|t3| >= 2 && t3[0] == '-' && t3[1] == '>' && SpanSpaces(t3[2..]) > 0)
  {
    var r2 := p3 + ("->" + (p4 + to));
    SpanSpacesOf(p2, from + r2);
    var t3 := from + r2;
    if |from| == 1 {
      assert t3[1] == p3[0];
    } else if |from| == 2 {
      assert t3[..2] == from;
    } else {
      assert t3[2..][0] == from[2];
    }
  }

  /** Inside the brackets, after the first word, the third field starts at a
      character of the summary, which is not '-'. */
  lemma ThirdFieldInSummary(s2: string, tail: string)
    requires s2 != [] && s2[|s2| - 1] != ' ' && '-' !in s2
    ensures var c := SpanSpaces(s2 + tail); c < |s2| && (s2 + tail)[c..][0] != '-'
  {
    var c := SpanSpaces(s2 + tail);
    assert (s2 + tail)[|s2| - 1] == s2[|s2| - 1];
    DropConcat(s2, tail, c);
    assert (s2 + tail)[c..][0] == s2[c];
  }

  /** With a bracketed summary that contains a space, the plain-word
      alternative fails: its third field never starts "->" followed by a space. */
  lemma WordAlternativeFails(sr: string, from: string, to: string, p2: string, p3: string, p4: string)
    requires |sr| >= 2 && sr[0] == ' ' && sr[|sr| - 1] != ' ' && '-' !in sr
    requires Blank(p2) && Blank(p3) && Blank(p4) && Word(from) && Word(to) && from != "->"
    ensures MatchTail(sr + RenderTail(from, to, p2, p3, p4)).None?
  {
    var tail := RenderTail(from, to, p2, p3, p4);
    var t := sr + tail;
    var a := SpanSpaces(t);
    assert t[|sr| - 1] == sr[|sr| - 1];
    DropConcat(sr, tail, a);
    var s1 := sr[a..];
    var b := SpanTo(s1 + tail, ' ');
    assert (s1 + tail)[|s1|] == tail[0] == p2[0];
    DropConcat(s1, tail, b);
    var s2 := s1[b..];
    if s2 != [] {
      ThirdFieldInSummary(s2, tail);
    } else {
      assert s2 + tail == tail;
      SourceIsNotArrow(from, to, p2, p3, p4);
    }
  }

  /** In `summary + tail` the first word ends at the first space of the summary. */
  lemma FirstWordInSummary(summary: string, tail: string) returns (w: nat)
    requires |summary| >= 1 && summary[0] != ' ' && ' ' in summary
    ensures w == SpanTo(summary + tail, ' ') && 0 < w < |summary| && summary[w] == ' '
    ensures (summary + tail)[w..] == summary[w..] + tail
  {
    var t := summary + tail;
    w := SpanTo(t, ' ');
    var z :| 0 <= z < |summary| && summary[z] == ' ';
    assert t[z] == summary[z];
    assert t[0] == summary[0];
    assert t[w] == summary[w];
    DropConcat(summary, tail, w);
  }

  /** In `summary + tail` with a bracketed summary, the closing bracket is the summary's last character. */
  lemma CloseOfBracketed(summary: string, tail: string)
    requires Bracketed(summary)
    ensures SpanTo((summary + tail)[1..], ']') == |summary| - 2
    ensures (summary + tail)[|summary|..] == tail && (summary + tail)[..|summary|] == summary
  {
    var u := (summary + tail)[1..];
    var k := SpanTo(u, ']');
    assert forall j | 0 <= j < |summary| - 2 :: u[j] == summary[1..|summary| - 1][j];
    assert u[|summary| - 2] == summary[|summary| - 1];
  }

  /** A bracketed summary with a space inside is matched by the second alternative. */
  lemma MatchBracketed(op: char, summary: string, from: string, to: string,
                       p2: string, p3: string, p4: string)
    requires Blank(p2) && Blank(p3) && Blank(p4) && Word(from) && Word(to)
    requires Bracketed(summary) && ' ' in summary && '-' !in summary && from != "->"
    ensures MatchSummary(op, summary + RenderTail(from, to, p2, p3, p4)) == Some(Fields(op, summary, from, to))
  {
    var tail := RenderTail(from, to, p2, p3, p4);
    var w := FirstWordInSummary(summary, tail);
    WordAlternativeFails(summary[w..], from, to, p2, p3, p4);
    CloseOfBracketed(summary, tail);
    MatchTailRendered(from, to, p2, p3, p4);
  }

  /** A rendered status line matches, and the groups are the rendered fields.
      For a bracketed summary containing spaces (`[new branch]`) the plain-word
      alternative is tried first and fails, provided no '-' occurs in the
      summary and the source is not the word "->". */
  lemma MatchRendered(op: char, summary: string, from: string, to: string,
                      p1: string, p2: string, p3: string, p4: string)
    requires op in OpChars
    requires Blank(p1) && Blank(p2) && Blank(p3) && Blank(p4) && Word(from) && Word(to)
    requires Word(summary) || (Bracketed(summary) && '-' !in summary && from != "->")
    ensures Match(Render(op, summary, from, to, p1, p2, p3, p4)) == Some(Fields(op, summary, from, to))
  {
    var tail := RenderTail(from, to, p2, p3, p4);
    var s := Render(op, summary, from, to, p1, p2, p3, p4);
    assert s[2..] == p1 + (summary + tail);
    SpanSpacesOf(p1, summary + tail);
    if Word(summary) {
      SpanWordOf(summary, tail);
      MatchTailRendered(from, to, p2, p3, p4);
    } else {
      MatchBracketed(op, summary, from, to, p2, p3, p4);
    }
  }
}

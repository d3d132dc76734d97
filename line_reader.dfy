/**
  `readTextFromUri`: read a stream line by line with BufferedReader.readLine and
  append every line to a StringBuilder. readLine ends a line at '\n', at '\r' or
  at "\r\n" and hands back the line without its terminator, so the text that
  comes out is the stream with its line terminators taken out.
*/
module LineReader {
  import opened Wrappers

  predicate IsTerminator(c: char)
  {
    c == '\n' || c == '\r'
  }

  /** Reference definition: the text with every line-terminator character removed, the rest in order. */
  function WithoutTerminators(s: string): (r: string)
    ensures |r| <= |s|
  {
    if s == [] then []
    else (if IsTerminator(s[0]) then [] else [s[0]]) + WithoutTerminators(s[1..])
  }

  /** The index of the first terminator at or after `i`, or the end of the text. */
  function LineEnd(s: string, i: nat): (e: nat)
    requires i <= |s|
    ensures i <= e <= |s|
    ensures forall k :: i <= k < e ==> !IsTerminator(s[k])
    ensures e < |s| ==> IsTerminator(s[e])
    decreases |s| - i
  {
    if i == |s| || IsTerminator(s[i]) then i else LineEnd(s, i + 1)
  }

  /**
    What readLine returns with the stream at `pos`: None (Java's null) at the end
    of the stream; otherwise the line and the position just past its terminator,
    where "\r\n" counts as one terminator.
  */
  function NextLine(s: string, pos: nat): (r: Option<(string, nat)>)
    requires pos <= |s|
    ensures r.None? <==> pos == |s|
    ensures r.Some? ==> pos < r.value.1 <= |s|
    ensures r.Some? ==> r.value.0 == s[pos..LineEnd(s, pos)]
  {
    if pos == |s| then None
    else
      var e := LineEnd(s, pos);
      var after :=
        if e == |s| then e
        else if s[e] == '\r' && e + 1 < |s| && s[e + 1] == '\n' then e + 2
        else e + 1;
      Some((s[pos..e], after))
  }

  /** The lines readLine hands out, from `pos` to the end of the stream. */
  function LinesFrom(s: string, pos: nat): seq<string>
    requires pos <= |s|
    decreases |s| - pos
  {
    match NextLine(s, pos)
    case None => []
    case Some((line, after)) => [line] + LinesFrom(s, after)
  }

  function Lines(s: string): seq<string>
  {
    LinesFrom(s, 0)
  }

  function Concat(lines: seq<string>): string
  {
    if lines == [] then [] else lines[0] + Concat(lines[1..])
  }

  lemma {:induction false} WithoutTerminatorsAppend(a: string, b: string)
    ensures WithoutTerminators(a + b) == WithoutTerminators(a) + WithoutTerminators(b)
  {
    if a != [] {
      assert (a + b)[1..] == a[1..] + b;
      WithoutTerminatorsAppend(a[1..], b);
    } else {
      assert a + b == b;
    }
  }

  /** Nothing the filter leaves is a line terminator. */
  lemma {:induction false} WithoutTerminatorsLeavesNone(s: string)
    ensures forall k :: 0 <= k < |WithoutTerminators(s)| ==> !IsTerminator(WithoutTerminators(s)[k])
  {
    if s != [] {
      WithoutTerminatorsLeavesNone(s[1..]);
    }
  }

  lemma {:induction false} WithoutTerminatorsKeepsLine(a: string)
    requires forall k :: 0 <= k < |a| ==> !IsTerminator(a[k])
    ensures WithoutTerminators(a) == a
  {
    if a != [] {
      WithoutTerminatorsKeepsLine(a[1..]);
    }
  }

  lemma {:induction false} WithoutTerminatorsDropsBreak(a: string)
    requires forall k :: 0 <= k < |a| ==> IsTerminator(a[k])
    ensures WithoutTerminators(a) == []
  {
    if a != [] {
      WithoutTerminatorsDropsBreak(a[1..]);
    }
  }

  /** A line, then its terminator, then the rest: filtering keeps the line and drops the terminator. */
  lemma LineThenBreak(line: string, ending: string, rest: string)
    requires forall k :: 0 <= k < |line| ==> !IsTerminator(line[k])
    requires forall k :: 0 <= k < |ending| ==> IsTerminator(ending[k])
    ensures WithoutTerminators(line + (ending + rest)) == line + WithoutTerminators(rest)
  {
    calc {
      WithoutTerminators(line + (ending + rest));
      { WithoutTerminatorsAppend(line, ending + rest); }
      WithoutTerminators(line) + WithoutTerminators(ending + rest);
      { WithoutTerminatorsKeepsLine(line); WithoutTerminatorsAppend(ending, rest); }
      line + (WithoutTerminators(ending) + WithoutTerminators(rest));
      { WithoutTerminatorsDropsBreak(ending); assert [] + WithoutTerminators(rest) == WithoutTerminators(rest); }
      line + WithoutTerminators(rest);
    }
  }

  /** One readLine call consumes exactly its line plus one terminator. */
  lemma NextLineConsumes(s: string, pos: nat)
    requires pos < |s|
    ensures WithoutTerminators(s[pos..]) == NextLine(s, pos).value.0 + WithoutTerminators(s[NextLine(s, pos).value.1..])
  {
    var e := LineEnd(s, pos);
    var after := NextLine(s, pos).value.1;
    var line, ending, rest := s[pos..e], s[e..after], s[after..];
    assert forall k :: 0 <= k < |ending| ==> IsTerminator(ending[k]) by {
      assert e < after ==> IsTerminator(s[e]);
      assert after == e + 2 ==> s[e + 1] == '\n';
    }
    assert s[pos..] == line + (ending + rest);
    LineThenBreak(line, ending, rest);
  }

  /** Joining the lines readLine hands out gives the text without its terminators. */
  lemma {:induction false} LinesJoinWithoutTerminators(s: string, pos: nat)
    requires pos <= |s|
    ensures Concat(LinesFrom(s, pos)) == WithoutTerminators(s[pos..])
    ensures forall i, k :: 0 <= i < |LinesFrom(s, pos)| && 0 <= k < |LinesFrom(s, pos)[i]| ==> !IsTerminator(LinesFrom(s, pos)[i][k])
    decreases |s| - pos
  {
    if pos < |s| {
      var after := NextLine(s, pos).value.1;
      LinesJoinWithoutTerminators(s, after);
      NextLineConsumes(s, pos);
      var lines := LinesFrom(s, pos);
      assert lines == [NextLine(s, pos).value.0] + LinesFrom(s, after);
      assert lines[1..] == LinesFrom(s, after);
    }
  }

  /** Concatenating the lines from `pos`: the first line, then the lines after it. */
  lemma ConcatLinesFrom(s: string, pos: nat)
    requires pos < |s|
    ensures Concat(LinesFrom(s, pos)) == NextLine(s, pos).value.0 + Concat(LinesFrom(s, NextLine(s, pos).value.1))
  {
    var rest := LinesFrom(s, NextLine(s, pos).value.1);
    assert LinesFrom(s, pos) == [NextLine(s, pos).value.0] + rest;
    assert ([NextLine(s, pos).value.0] + rest)[1..] == rest;
  }

  /** Appending the next line to what has been read keeps the whole text in view. */
  lemma ReadOneLine(s: string, pos: nat, text: string)
    requires pos < |s|
    ensures text + Concat(LinesFrom(s, pos)) == (text + NextLine(s, pos).value.0) + Concat(LinesFrom(s, NextLine(s, pos).value.1))
  {
    ConcatLinesFrom(s, pos);
  }

  /**
    `readTextFromUri` over a stream holding `content`: the while loop appends each
    line readLine returns until it returns null.
  */
  method ReadTextFromUri(content: string) returns (text: string)
    ensures text == Concat(Lines(content))
    ensures text == WithoutTerminators(content)
    ensures forall k :: 0 <= k < |text| ==> !IsTerminator(text[k])
  {
    text := "";
    var pos := 0;
    var line := NextLine(content, pos);
    while line.Some?
      invariant pos <= |content|
      invariant line == NextLine(content, pos)
      invariant text + Concat(LinesFrom(content, pos)) == Concat(Lines(content))
      decreases |content| - pos
    {
      ReadOneLine(content, pos, text);
      text := text + line.value.0;
      pos := line.value.1;
      line := NextLine(content, pos);
    }
    assert content[0..] == content;
    LinesJoinWithoutTerminators(content, 0);
    WithoutTerminatorsLeavesNone(content);
  }
}

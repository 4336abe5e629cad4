/** The lines a diagnostic shows: an index loop over the text against "split on newline". */
module SourceLines {

  /** The first newline at or after `from`, or the end of the text. */
  function FindNewline(s: string, from: nat): (i: nat)
    requires from <= |s|
    ensures from <= i <= |s| && (i < |s| ==> s[i] == '\n')
    ensures forall k :: from <= k < i ==> s[k] != '\n'
    decreases |s| - from
  {
    if from == |s| || s[from] == '\n' then from else FindNewline(s, from + 1)
  }

  /** The pieces of a text between its newlines. */
  function Split(s: string): (pieces: seq<string>)
    ensures pieces != []
    decreases |s|
  {
    var i := FindNewline(s, 0);
    if i == |s| then [s] else [s[..i]] + Split(s[i + 1..])
  }

  function Join(pieces: seq<string>): string
    requires pieces != []
  {
    if |pieces| == 1 then pieces[0] else pieces[0] + "\n" + Join(pieces[1..])
  }

  predicate NoNewline(s: string) {
    '\n' !in s
  }

  /** Joining the pieces gives the text back. */
  lemma {:induction false} SplitJoins(s: string)
    ensures Join(Split(s)) == s && forall i :: 0 <= i < |Split(s)| ==> NoNewline(Split(s)[i])
    decreases |s|
  {
    var i := FindNewline(s, 0);
    if i < |s| {
      SplitJoins(s[i + 1..]);
      assert s == s[..i] + "\n" + s[i + 1..];
    }
  }

  /** There is no other way to cut the text into pieces without newlines. */
  lemma {:induction false} SplitIsUnique(pieces: seq<string>)
    requires pieces != [] && forall i :: 0 <= i < |pieces| ==> NoNewline(pieces[i])
    ensures Split(Join(pieces)) == pieces
    decreases |pieces|
  {
    hide FindNewline;
    assert NoNewline(pieces[0]);
    if |pieces| > 1 {
      var rest := Join(pieces[1..]);
      FirstNewline(pieces[0], rest);
      assert Join(pieces) == pieces[0] + ("\n" + rest);
      SplitIsUnique(pieces[1..]);
      assert pieces == [pieces[0]] + pieces[1..];
    }
  }

  lemma {:induction false} FirstNewline(piece: string, rest: string)
    requires NoNewline(piece)
    ensures var s := piece + ("\n" + rest);
            FindNewline(s, 0) == |piece| && s[..|piece|] == piece && s[|piece| + 1..] == rest
  {
    var s := piece + ("\n" + rest);
    assert s[|piece|] == '\n' && forall k :: 0 <= k < |piece| ==> s[k] == piece[k];
  }

  /** The loop's cursor: the lines already visited, joined, are what lies before the next line. */
  ghost predicate Cursor(content: string, visited: seq<string>, start: nat, end: nat) {
    if visited == [] then start == 0 && end == 0
    else
      && end <= |content| && start == end + 1 && Join(visited) == content[..end]
      && (end < |content| ==> content[end] == '\n')
      && forall i :: 0 <= i < |visited| ==> NoNewline(visited[i])
  }

  lemma {:induction false} JoinOneMore(pieces: seq<string>, p: string)
    requires pieces != []
    ensures Join(pieces + [p]) == Join(pieces) + "\n" + p
  {
    if |pieces| > 1 {
      assert (pieces + [p])[1..] == pieces[1..] + [p];
      JoinOneMore(pieces[1..], p);
    } else {
      assert (pieces + [p])[1..] == [p];
    }
  }

  lemma {:induction false} CursorMoves(content: string, visited: seq<string>, start: nat, end: nat)
    requires Cursor(content, visited, start, end) && end < |content|
    ensures start <= |content|
    ensures var next := FindNewline(content, start);
            Cursor(content, visited + [content[start..next]], next + 1, next)
  {
    var next := FindNewline(content, start);
    var line := content[start..next];
    if visited == [] {
      assert [] + [line] == [line] && content[..next] == line;
    } else {
      JoinOneMore(visited, line);
      assert content[..next] == content[..end] + "\n" + line;
    }
  }

  datatype Shown = Shown(number: nat, text: string)

  /** The lines within the range, numbered from 1. */
  function InRange(lines: seq<string>, first: nat, last: nat): seq<Shown> {
    if lines == [] then [] else
      InRange(lines[..|lines| - 1], first, last) +
      if first <= |lines| <= last then [Shown(|lines|, lines[|lines| - 1])] else []
  }

  /** Each line number in the range that exists is shown once, with its line, in order. */
  lemma {:induction false} InRangeExactly(lines: seq<string>, first: nat, last: nat)
    ensures var shown := InRange(lines, first, last);
            && (forall i :: 0 <= i < |shown| ==>
                  && first <= shown[i].number <= last && 1 <= shown[i].number <= |lines|
                  && shown[i].text == lines[shown[i].number - 1])
            && (forall i, j :: 0 <= i < j < |shown| ==> shown[i].number < shown[j].number)
            && (forall k :: 0 <= k < |lines| && first <= k + 1 <= last ==> Shown(k + 1, lines[k]) in shown)
  {
    if lines != [] {
      InRangeExactly(lines[..|lines| - 1], first, last);
    }
  }

  /** What is shown for a range of a file: each of its lines with a number in the range, once and in order. `visited` are the
      lines the loop went through. */
  method PrintSourceLocation(content: string, lineStart: nat, lineEnd: nat) returns (out: seq<Shown>,
                             ghost visited: seq<string>)
    ensures (visited == [] <==> content == "") && (content != "" ==> Join(visited) == content)
    ensures forall i :: 0 <= i < |visited| ==> NoNewline(visited[i])
    ensures content != "" ==> visited == Split(content)
    ensures forall i :: 0 <= i < |out| ==>
              && lineStart <= out[i].number <= lineEnd && 1 <= out[i].number <= |visited|
              && out[i].text == visited[out[i].number - 1]
    ensures forall i, j :: 0 <= i < j < |out| ==> out[i].number < out[j].number
    ensures forall k :: 0 <= k < |visited| && lineStart <= k + 1 <= lineEnd ==> Shown(k + 1, visited[k]) in out
  {
    hide InRange, Split, Join, Cursor, NoNewline;
    var currentLine := 1;
    var lineStartIdx := 0;
    var lineEndIdx := 0;
    out, visited := [], [];
    AtStart(content, lineStart, lineEnd);
    while lineEndIdx < |content|
      invariant currentLine == |visited| + 1 && Cursor(content, visited, lineStartIdx, lineEndIdx)
      invariant out == InRange(visited, lineStart, lineEnd)
      invariant content != "" && lineEndIdx >= |content| ==> visited != []
      invariant content == "" ==> visited == []
      decreases |content| + 1 - lineStartIdx
    {
      CursorMoves(content, visited, lineStartIdx, lineEndIdx);
      lineEndIdx := FindNewline(content, lineStartIdx);
      var line := content[lineStartIdx..lineEndIdx];
      OneMoreLine(visited, line, lineStart, lineEnd);
      if currentLine >= lineStart && currentLine <= lineEnd {
        out := out + [Shown(currentLine, line)];
      }
      visited := visited + [line];
      lineStartIdx := lineEndIdx + 1;
      currentLine := currentLine + 1;
    }
    AtEnd(content, visited, lineStartIdx, lineEndIdx);
    InRangeExactly(visited, lineStart, lineEnd);
  }

  lemma {:induction false} AtStart(content: string, first: nat, last: nat)
    ensures Cursor(content, [], 0, 0) && InRange([], first, last) == []
  {
  }

  lemma {:induction false} OneMoreLine(lines: seq<string>, line: string, first: nat, last: nat)
    ensures InRange(lines + [line], first, last) ==
            if first <= |lines| + 1 <= last then InRange(lines, first, last) + [Shown(|lines| + 1, line)]
            else InRange(lines, first, last)
  {
    assert (lines + [line])[..|lines|] == lines;
  }

  /** A cursor at the end has gone through all lines. */
  lemma {:induction false} AtEnd(content: string, visited: seq<string>, start: nat, end: nat)
    requires Cursor(content, visited, start, end) && end >= |content| && (content != "" ==> visited != [])
    ensures visited != [] ==> Join(visited) == content && visited == Split(content)
    ensures forall i :: 0 <= i < |visited| ==> NoNewline(visited[i])
  {
    hide Split;
    if visited != [] {
      assert content[..end] == content;
      SplitIsUnique(visited);
    }
  }
}

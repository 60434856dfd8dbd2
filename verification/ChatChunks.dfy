/** Splitting long replies into chat messages: `_format_response_for_chat` of agents/daemon.py, before decoration. */
module ChatChunks {
  /** The pieces between newlines; one more than there are newlines. */
  function Lines(text: string): (lines: seq<string>)
    ensures lines != []
  {
    if text == [] then [""]
    else
      var rest := Lines(text[1..]);
      if text[0] == '\n' then [""] + rest else [[text[0]] + rest[0]] + rest[1..]
  }

  /** Every line with its newline. */
  function Render(lines: seq<string>): string {
    if lines == [] then "" else Render(lines[..|lines| - 1]) + lines[|lines| - 1] + "\n"
  }

  function Concat<T>(parts: seq<seq<T>>): seq<T> {
    if parts == [] then [] else Concat(parts[..|parts| - 1]) + parts[|parts| - 1]
  }

  lemma LastLine(lines: seq<string>)
    requires lines != []
    ensures Render(lines) == Render(lines[..|lines| - 1]) + lines[|lines| - 1] + "\n"
  {
  }

  lemma Regroup(a: string, b: string, c: string, d: string)
    ensures a + b + c + d == a + (b + c + d)
  {
  }

  lemma {:induction false} RenderFirst(lines: seq<string>)
    requires lines != []
    ensures Render(lines) == lines[0] + "\n" + Render(lines[1..])
  {
    if |lines| > 1 {
      var last := |lines| - 1;
      RenderFirst(lines[..last]);
      LastLine(lines);
      LastLine(lines[1..]);
      hide Render;
      Regroup(lines[0] + "\n", Render(lines[1..][..last - 1]), lines[last], "\n");
      assert lines[..last][1..] == lines[1..][..last - 1];
    } else {
      assert lines[..0] == [] && lines[1..] == [];
    }
  }

  /** The lines with their newlines are the text with one more newline. */
  lemma {:induction false} LinesRenderText(text: string)
    ensures Render(Lines(text)) == text + "\n"
  {
    if text == [] {
      assert Lines(text) == [""] && [""][..0] == [];
    } else {
      LinesRenderText(text[1..]);
      var rest := Lines(text[1..]);
      RenderFirst(Lines(text));
      RenderFirst(rest);
      hide Render;
      PrependChar(text[0], rest[0], Render(rest[1..]), text);
      assert text[0] != '\n' ==> Lines(text)[0] == [text[0]] + rest[0] && Lines(text)[1..] == rest[1..];
      assert text[0] == '\n' ==> Lines(text)[0] == "" && Lines(text)[1..] == rest;
    }
  }

  /** A character in front of a line is a character in front of what follows. */
  lemma PrependChar(c: char, line: string, rendered: string, text: string)
    requires text != [] && c == text[0] && line + "\n" + rendered == text[1..] + "\n"
    ensures [c] + line + "\n" + rendered == text + "\n"
    ensures "" + [c] + (line + "\n" + rendered) == text + "\n"
  {
    assert text == [c] + text[1..];
    assert [c] + line + "\n" + rendered == [c] + (line + "\n" + rendered);
    assert [c] + (text[1..] + "\n") == text + "\n";
  }

  lemma {:induction false} LinesHoldNoNewline(text: string)
    ensures forall i :: 0 <= i < |Lines(text)| ==> '\n' !in Lines(text)[i]
  {
    if text != [] {
      LinesHoldNoNewline(text[1..]);
    }
  }

  lemma {:induction false} RenderConcat(a: seq<string>, b: seq<string>)
    ensures Render(a + b) == Render(a) + Render(b)
  {
    if b == [] {
      assert a + b == a;
    } else {
      var last := |b| - 1;
      RenderConcat(a, b[..last]);
      LastLine(a + b);
      LastLine(b);
      hide Render;
      Regroup(Render(a), Render(b[..last]), b[last], "\n");
      assert (a + b)[..|a + b| - 1] == a + b[..last];
    }
  }

  lemma {:induction false} RenderGroups(groups: seq<seq<string>>, chunks: seq<string>)
    requires |chunks| == |groups| && forall i :: 0 <= i < |groups| ==> chunks[i] == Render(groups[i])
    ensures Render(Concat(groups)) == Concat(chunks)
  {
    if groups != [] {
      var last := |groups| - 1;
      RenderGroups(groups[..last], chunks[..last]);
      RenderConcat(Concat(groups[..last]), groups[last]);
    }
  }

  /**
   * A grouping of the lines into chunks: no group is empty, one of several lines stays within the
   * limit, and the line after a group would not have fitted into it.
   */
  ghost predicate Greedy(groups: seq<seq<string>>, maxLength: int) {
    && (forall i :: 0 <= i < |groups| ==> groups[i] != [])
    && (forall i :: 0 <= i < |groups| && |groups[i]| > 1 ==> |Render(groups[i])| <= maxLength)
    && (forall i, j :: 0 <= i && j == i + 1 < |groups| ==> |Render(groups[i])| + |groups[j][0]| + 1 > maxLength)
  }

  /** A first line opens a group. */
  lemma OpenGroup(groups: seq<seq<string>>, line: string, maxLength: int)
    requires Greedy(groups, maxLength)
    requires groups != [] ==> |Render(groups[|groups| - 1])| + |line| + 1 > maxLength
    ensures Greedy(groups + [[line]], maxLength) && Concat(groups + [[line]]) == Concat(groups) + [line]
    ensures Render([line]) == line + "\n"
  {
    assert (groups + [[line]])[..|groups|] == groups;
    assert [line][..0] == [];
  }

  lemma JoinedText(groups: seq<seq<string>>, group: seq<string>, line: string)
    ensures Concat(groups + [group + [line]]) == Concat(groups + [group]) + [line]
    ensures Render(group + [line]) == Render(group) + line + "\n"
  {
    assert (group + [line])[..|group|] == group;
    assert (groups + [group])[..|groups|] == groups && (groups + [group + [line]])[..|groups|] == groups;
  }

  /** A line that fits joins the last group. */
  lemma JoinGroup(groups: seq<seq<string>>, group: seq<string>, line: string, maxLength: int)
    requires group != [] && Greedy(groups + [group], maxLength) && |Render(group)| + |line| + 1 <= maxLength
    ensures Greedy(groups + [group + [line]], maxLength)
    ensures Concat(groups + [group + [line]]) == Concat(groups + [group]) + [line]
    ensures Render(group + [line]) == Render(group) + line + "\n"
  {
    JoinedText(groups, group, line);
    hide Render, Concat;
    var before, after := groups + [group], groups + [group + [line]];
    forall i | 0 <= i < |after|
      ensures after[i] != [] && after[i][0] == before[i][0] && (|after[i]| > 1 ==> |Render(after[i])| <= maxLength)
      ensures i < |groups| ==> after[i] == before[i]
    {
      assert i < |groups| ==> after[i] == before[i] == groups[i];
    }
    forall i, j | 0 <= i && j == i + 1 < |after|
      ensures |Render(after[i])| + |after[j][0]| + 1 > maxLength
    {
      assert |Render(before[i])| + |before[j][0]| + 1 > maxLength;
    }
  }

  /** Splits the reply at line ends; a reply within the limit goes out as it is. */
  method FormatResponseForChat(result: string, maxLength: int)
    returns (chunks: seq<string>, ghost groups: seq<seq<string>>)
    ensures |result| <= maxLength ==> chunks == [result]
    ensures |result| > maxLength ==>
      Concat(groups) == Lines(result) && Greedy(groups, maxLength) && RendersTo(groups, chunks)
    ensures |result| > maxLength ==> Concat(chunks) == result + "\n"
    ensures |result| > maxLength ==>
      ((forall i :: 0 <= i < |chunks| ==> |chunks[i]| <= maxLength) <==>
       (forall line :: line in Lines(result) ==> |line| < maxLength))
  {
    hide Greedy, RendersTo, Lines, Concat;
    if |result| <= maxLength {
      return [result], [];
    }
    chunks, groups := GroupLines(Lines(result), maxLength);
    ChunksAreLossless(result, maxLength, groups, chunks);
    ChunksFitIffLinesAreShorter(result, maxLength, groups, chunks);
  }

  /** The loop over the lines, filling one chunk after the other. */
  method GroupLines(lines: seq<string>, maxLength: int) returns (chunks: seq<string>, ghost groups: seq<seq<string>>)
    requires lines != []
    ensures Concat(groups) == lines && Greedy(groups, maxLength) && RendersTo(groups, chunks)
  {
    hide Render, Concat, Greedy, RendersTo;
    assert lines[..|lines|] == lines;
    chunks, groups := [], [];
    NothingRendered();
    var current := "";
    ghost var group: seq<string> := [];
    for k := 0 to |lines|
      invariant RendersTo(groups, chunks)
      invariant if k == 0 then groups == [] && group == [] && current == "" else
        && group != [] && current == Render(group) && current != ""
        && Concat(groups + [group]) == lines[..k] && Greedy(groups + [group], maxLength)
    {
      var line := lines[k];
      assert lines[..k + 1] == lines[..k] + [line];
      if |current| + |line| + 1 > maxLength {
        if current != "" {
          OpenGroup(groups + [group], line, maxLength);
          OneMoreRendered(groups, chunks, group);
          chunks := chunks + [current];
          groups := groups + [group];
        } else {
          FirstGroup(line, maxLength);
          assert lines[..k + 1] == [line] && groups + [[line]] == [[line]];
        }
        current := line + "\n";
        group := [line];
      } else {
        if group != [] {
          JoinGroup(groups, group, line, maxLength);
        } else {
          FirstGroup(line, maxLength);
          assert lines[..k + 1] == [line] && groups + [[line]] == [[line]] && group + [line] == [line];
          assert current + line + "\n" == line + "\n";
        }
        current := current + line + "\n";
        group := group + [line];
      }
    }
    if current != "" {
      OneMoreRendered(groups, chunks, group);
      chunks := chunks + [current];
      groups := groups + [group];
    }
  }

  lemma NothingRendered()
    ensures RendersTo([], [])
  {
  }

  lemma OneMoreRendered(groups: seq<seq<string>>, chunks: seq<string>, group: seq<string>)
    requires RendersTo(groups, chunks)
    ensures RendersTo(groups + [group], chunks + [Render(group)])
  {
  }

  lemma FirstGroup(line: string, maxLength: int)
    ensures Greedy([[line]], maxLength) && Concat([[line]]) == [line] && Render([line]) == line + "\n"
  {
    OpenGroup([], line, maxLength);
    assert [] + [[line]] == [[line]] && [] + [line] == [line];
  }

  ghost predicate RendersTo(groups: seq<seq<string>>, chunks: seq<string>) {
    |chunks| == |groups| && forall i :: 0 <= i < |chunks| ==> chunks[i] == Render(groups[i])
  }

  /** Nothing is lost, no chunk is empty, and only a line too long by itself makes a chunk too long. */
  lemma ChunksAreLossless(result: string, maxLength: int, groups: seq<seq<string>>, chunks: seq<string>)
    requires Concat(groups) == Lines(result) && Greedy(groups, maxLength) && RendersTo(groups, chunks)
    ensures Concat(chunks) == result + "\n"
    ensures forall i :: 0 <= i < |chunks| ==> chunks[i] != ""
    ensures forall i :: 0 <= i < |chunks| && |chunks[i]| > maxLength ==>
      IsOverlongLine(chunks[i], Lines(result), maxLength)
  {
    RenderGroups(groups, chunks);
    LinesRenderText(result);
    LinesHoldNoNewline(result);
    hide Render, Concat, Lines, IsOverlongLine;
    forall i | 0 <= i < |chunks|
      ensures chunks[i] != "" && (|chunks[i]| > maxLength ==> IsOverlongLine(chunks[i], Lines(result), maxLength))
    {
      InConcat(groups, i, 0);
      GroupsFitOrAreOneLine(groups[i], Lines(result), maxLength);
    }
  }

  /** The chunk is one of the lines, which alone, with its newline, exceeds the limit. */
  ghost predicate IsOverlongLine(chunk: string, lines: seq<string>, maxLength: int) {
    exists line :: line in lines && |line| >= maxLength && '\n' !in line && chunk == line + "\n"
  }

  lemma GroupsFitOrAreOneLine(group: seq<string>, lines: seq<string>, maxLength: int)
    requires group != [] && group[0] in lines && forall i :: 0 <= i < |lines| ==> '\n' !in lines[i]
    requires |group| > 1 ==> |Render(group)| <= maxLength
    ensures Render(group) != ""
    ensures |Render(group)| > maxLength ==> IsOverlongLine(Render(group), lines, maxLength)
  {
    RenderFirst(group);
    if |group| == 1 {
      assert group[1..] == [];
    }
  }

  lemma {:induction false} InConcat<T>(parts: seq<seq<T>>, i: nat, k: nat)
    requires i < |parts| && k < |parts[i]|
    ensures parts[i][k] in Concat(parts)
  {
    if i < |parts| - 1 {
      InConcat(parts[..|parts| - 1], i, k);
    }
  }

  lemma {:induction false} FromSomePart<T>(parts: seq<seq<T>>, x: T) returns (i: nat, k: nat)
    requires x in Concat(parts)
    ensures i < |parts| && k < |parts[i]| && parts[i][k] == x
  {
    var last := |parts| - 1;
    if x in parts[last] {
      i := last;
      k :| 0 <= k < |parts[last]| && parts[last][k] == x;
    } else {
      i, k := FromSomePart(parts[..last], x);
    }
  }

  lemma {:induction false} LineFitsItsGroup(group: seq<string>, k: nat)
    requires k < |group|
    ensures |Render(group)| >= |group[k]| + 1
  {
    if k < |group| - 1 {
      LineFitsItsGroup(group[..|group| - 1], k);
    }
  }

  /** All chunks are within the limit exactly when every line is shorter than it: the newline counts too. */
  lemma ChunksFitIffLinesAreShorter(result: string, maxLength: int, groups: seq<seq<string>>, chunks: seq<string>)
    requires Concat(groups) == Lines(result) && Greedy(groups, maxLength) && RendersTo(groups, chunks)
    ensures (forall i :: 0 <= i < |chunks| ==> |chunks[i]| <= maxLength) <==>
      forall line :: line in Lines(result) ==> |line| < maxLength
  {
    hide Render, Concat, Lines, Greedy;
    ChunksAreLossless(result, maxLength, groups, chunks);
    if forall i :: 0 <= i < |chunks| ==> |chunks[i]| <= maxLength {
      forall line | line in Lines(result)
        ensures |line| < maxLength
      {
        var i, k := FromSomePart(groups, line);
        LineFitsItsGroup(groups[i], k);
        assert |chunks[i]| <= maxLength;
      }
    }
  }

  /** A line of exactly the limit, with its newline the whole text, makes a chunk one character too long. */
  lemma LineOfTheLimitIsTooLong(line: string, groups: seq<seq<string>>, chunks: seq<string>)
    requires line != "" && '\n' !in line
    requires Concat(groups) == Lines(line + "\n") && Greedy(groups, |line|) && RendersTo(groups, chunks)
    ensures exists i :: 0 <= i < |chunks| && |chunks[i]| == |line| + 1
  {
    hide Render, Concat, Lines, Greedy;
    LinesOfOne(line);
    assert line in [line, ""];
    ChunksFitIffLinesAreShorter(line + "\n", |line|, groups, chunks);
    ChunksAreLossless(line + "\n", |line|, groups, chunks);
    var i :| 0 <= i < |chunks| && |chunks[i]| > |line|;
    var l :| l in [line, ""] && |l| >= |line| && chunks[i] == l + "\n";
  }

  lemma {:induction false} LinesOfOne(line: string)
    requires '\n' !in line
    ensures Lines(line + "\n") == [line, ""]
  {
    var text := line + "\n";
    if line == "" {
      assert text[1..] == "" && text[0] == '\n';
    } else {
      LinesOfOne(line[1..]);
      assert text[1..] == line[1..] + "\n" && text[0] == line[0] && line[0] in line;
      assert [line[0]] + line[1..] == line;
    }
  }
}

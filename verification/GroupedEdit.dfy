/** The line-preserving replacement as the tool runs it, with the loops over lines and groups. */
module GroupedEdit {
  import opened Lines
  import opened BatchEdit
  import opened LineGroups

  datatype LineSpan = LineSpan(start: nat, end: nat)

  ghost predicate Spans(lines: seq<Text>, bounds: seq<LineSpan>) {
    && |bounds| == |lines|
    && forall i :: 0 <= i < |lines| ==> bounds[i] == LineSpan(Offset(lines, i), Offset(lines, i + 1))
  }

  lemma {:induction false} LinesAppend(a: seq<Text>, b: seq<Text>)
    requires AreLines(a) && AreLines(b) && (a != [] ==> EndsLine(a[|a| - 1]))
    ensures AreLines(a + b)
  {
  }

  /** Splitting may be cut at any newline. */
  lemma {:induction false} SplitBoundary(x: Text, y: Text)
    requires x == [] || EndsLine(x)
    ensures SplitLines(x + y) == SplitLines(x) + SplitLines(y)
  {
    ConcatSplit(x);
    ConcatSplit(y);
    SplitAreLines(x);
    SplitAreLines(y);
    var a, b := SplitLines(x), SplitLines(y);
    assert x == [] ==> a == [];
    LinesAppend(a, b);
    ConcatAppend(a, b);
    SplitConcat(a + b);
  }

  lemma {:induction false} OneLine(s: Text)
    requires IsLine(s)
    ensures SplitLines(s) == [s]
  {
    assert AreLines([s]);
    SplitConcat([s]);
    assert [s][1..] == [] && Concat([s]) == s;
  }

  lemma {:induction false} LineBehind(before: Text, line: Text)
    requires (before == [] || EndsLine(before)) && IsLine(line)
    ensures SplitLines(before + line) == SplitLines(before) + [line]
  {
    OneLine(line);
    SplitBoundary(before, line);
  }

  lemma {:induction false} NextLine(content: Text, start: nat, end: nat)
    requires start < end <= |content| && (start == 0 || content[start - 1] == '\n')
    requires forall i :: start <= i < end - 1 ==> content[i] != '\n'
    ensures SplitLines(content[..end]) == SplitLines(content[..start]) + [content[start..end]]
  {
    var before, line := content[..start], content[start..end];
    assert content[..end] == before + line;
    LineBehind(before, line);
  }

  /** Cut a text after every newline; a last line without one counts if it is not empty. */
  method SplitWithEndings(content: Text) returns (lines: seq<Text>)
    ensures lines == SplitLines(content)
  {
    lines := [];
    var start := 0;
    for index := 0 to |content|
      invariant 0 <= start <= index
      invariant lines == SplitLines(content[..start]) && (start == 0 || content[start - 1] == '\n')
      invariant forall i :: start <= i < index ==> content[i] != '\n'
    {
      if content[index] == '\n' {
        NextLine(content, start, index + 1);
        lines := lines + [content[start..index + 1]];
        start := index + 1;
      }
    }
    assert content[..|content|] == content;
    if start < |content| {
      NextLine(content, start, |content|);
      lines := lines + [content[start..]];
    }
  }

  method LineSpans(content: Text) returns (bounds: seq<LineSpan>)
    ensures Spans(SplitLines(content), bounds)
  {
    var lines := SplitWithEndings(content);
    bounds := [];
    var offset := 0;
    for i := 0 to |lines|
      invariant offset == Offset(lines, i) && |bounds| == i
      invariant forall k :: 0 <= k < i ==> bounds[k] == LineSpan(Offset(lines, k), Offset(lines, k + 1))
    {
      bounds := bounds + [LineSpan(offset, offset + |lines[i]|)];
      offset := offset + |lines[i]|;
    }
  }

  /** The line that holds a position, or the number of lines when none does. */
  method FirstLine(bounds: seq<LineSpan>, pos: nat, ghost lines: seq<Text>) returns (i: nat)
    requires Spans(lines, bounds)
    ensures i <= |lines| && Offset(lines, i) <= pos && (i < |lines| ==> pos < Offset(lines, i + 1))
  {
    i := 0;
    while i < |bounds| && !(bounds[i].start <= pos < bounds[i].end)
      invariant i <= |bounds| && Offset(lines, i) <= pos
    {
      i := i + 1;
    }
  }

  /** The first line from `from` on that reaches `end`, or the number of lines when none does. */
  method LastLine(bounds: seq<LineSpan>, from: nat, end: nat, ghost lines: seq<Text>) returns (i: nat)
    requires Spans(lines, bounds) && from <= |lines| && Offset(lines, from) < end
    ensures from <= i <= |lines| && Offset(lines, i) < end && (i < |lines| ==> end <= Offset(lines, i + 1))
  {
    i := from;
    while i < |bounds| && bounds[i].end < end
      invariant from <= i <= |bounds| && Offset(lines, i) < end
    {
      i := i + 1;
    }
  }

  /** The lines a replacement touches; an error exactly when it reaches outside the text. */
  method ReplacementLineRange(bounds: seq<LineSpan>, span: Span, ghost lines: seq<Text>) returns (r: Result<(nat, nat)>)
    requires Spans(lines, bounds) && span.length > 0
    ensures r.Ok? <==> InText(lines, span)
    ensures r.Ok? ==> r.value == (StartLine(lines, span), EndLine(lines, span))
    ensures r.Err? ==> r.error == OutsideBase
  {
    var startLine := FirstLine(bounds, span.start, lines);
    if startLine == |bounds| {
      return Err(OutsideBase);
    }
    var endLine := LastLine(bounds, startLine, span.End(), lines);
    if endLine >= |bounds| {
      return Err(OutsideBase);
    }
    OffsetMonotone(lines, endLine + 1, |lines|);
    LineAtUnique(lines, span.start, startLine);
    LineAtUnique(lines, span.End() - 1, endLine);
    return Ok((startLine, endLine + 1));
  }

  lemma {:induction false} LineAtUnique(lines: seq<Text>, pos: nat, i: nat)
    requires i < |lines| && Offset(lines, i) <= pos < Offset(lines, i + 1)
    ensures pos < Offset(lines, |lines|) && LineAt(lines, pos, |lines|) == i
  {
    OffsetMonotone(lines, i + 1, |lines|);
    var k := LineAt(lines, pos, |lines|);
    if k < i {
      OffsetMonotone(lines, k + 1, i);
    } else if i < k {
      OffsetMonotone(lines, i + 1, k);
    }
  }

  ghost function Plan(normalized: Text, spans: seq<Span>): (blocks: seq<Block>)
    requires Planned(normalized, spans)
    ensures BlocksWithin(blocks, |SplitLines(normalized)|)
  {
    var lines := SplitLines(normalized);
    PlannedInText(normalized, spans);
    GroupAllOk(lines, spans);
    var groups := GroupAll(lines, spans);
    BlocksInRange(lines, groups, 0);
    Blocks(lines, groups, 0)
  }

  /** Non-empty spans inside the text, in order and disjoint. */
  predicate Planned(content: Text, spans: seq<Span>) {
    && (forall i :: 0 <= i < |spans| ==> spans[i].length > 0 && spans[i].End() <= |content|)
    && (forall i, j :: 0 <= i < j < |spans| ==> spans[i].End() <= spans[j].start)
  }

  lemma {:induction false} PlannedInText(content: Text, spans: seq<Span>)
    requires Planned(content, spans)
    ensures AllInText(SplitLines(content), spans) && PairwiseDisjoint(spans) && Ordered(spans, 0, |content|)
  {
    ConcatSplit(content);
    OffsetsCut(SplitLines(content), 0, 0);
    DisjointIsOrdered(spans, 0, |content|);
  }

  /** The line-preserving replacement refines the plain one: over the normalized lines its blocks
      give exactly plain replacement, and a line is kept as it is precisely when no span touches it.
      So against plain replacement the result differs only in untouched lines. */
  lemma {:induction false} GroupedRefinesPlain(normalized: Text, spans: seq<Span>)
    requires Planned(normalized, spans)
    ensures Ordered(spans, 0, |normalized|)
    ensures Render(SplitLines(normalized), Plan(normalized, spans)) == Substitute(normalized, 0, spans, 0)
    ensures forall i: nat :: KeptIn(Plan(normalized, spans), i) <==>
              i < |SplitLines(normalized)| && !HitBySome(SplitLines(normalized), spans, i)
  {
    var lines := SplitLines(normalized);
    PlannedInText(normalized, spans);
    GroupAllOk(lines, spans);
    var groups := GroupAll(lines, spans);
    BlocksArePlain(lines, groups, 0);
    ConcatSplit(normalized);
    forall i: nat ensures KeptIn(Plan(normalized, spans), i) <==> i < |lines| && !HitBySome(lines, spans, i) {
      KeptIsUngrouped(lines, groups, 0, i);
      if i < |lines| {
        GroupedIsHit(lines, groups, i);
      }
    }
  }

  lemma {:induction false} GroupAllSnoc(lines: seq<Text>, spans: seq<Span>, k: nat)
    requires k < |spans| && AllInText(lines, spans[..k]) && InText(lines, spans[k])
    ensures AllInText(lines, spans[..k + 1])
    ensures GroupAll(lines, spans[..k + 1])
         == Merge(GroupAll(lines, spans[..k]), StartLine(lines, spans[k]), EndLine(lines, spans[k]), spans[k])
  {
    var longer := spans[..k + 1];
    assert longer[..|longer| - 1] == spans[..k] && longer[|longer| - 1] == spans[k];
    assert AllInText(lines, longer);
  }

  method BuildGroups(bounds: seq<LineSpan>, spans: seq<Span>, ghost lines: seq<Text>) returns (r: Result<seq<Group>>)
    requires Spans(lines, bounds) && forall i :: 0 <= i < |spans| ==> spans[i].length > 0
    ensures r.Ok? <==> AllInText(lines, spans)
    ensures r.Ok? ==> r.value == GroupAll(lines, spans)
    ensures r.Err? ==> r.error == OutsideBase
  {
    var groups: seq<Group> := [];
    for k := 0 to |spans|
      invariant AllInText(lines, spans[..k]) && groups == GroupAll(lines, spans[..k])
    {
      var range := ReplacementLineRange(bounds, spans[k], lines);
      if range.Err? {
        return Err(range.error);
      }
      GroupAllSnoc(lines, spans, k);
      groups := Merge(groups, range.value.0, range.value.1, spans[k]);
    }
    assert spans[..|spans|] == spans;
    return Ok(groups);
  }

  lemma {:induction false} SuffixOk(lines: seq<Text>, groups: seq<Group>, k: nat)
    requires GroupsOk(lines, groups) && k <= |groups|
    ensures GroupsOk(lines, groups[k..])
    ensures 0 < k < |groups| ==> groups[k - 1].endLine <= groups[k].startLine
  {
  }

  /** What is left to render behind the first `k` groups. */
  ghost function Remaining(lines: seq<Text>, keep: seq<Text>, groups: seq<Group>, k: nat, at: nat): Text
    requires GroupsOk(lines, groups) && k <= |groups| && |keep| == |lines|
    requires at <= |lines| && (k < |groups| ==> at <= groups[k].startLine)
  {
    SuffixOk(lines, groups, k);
    BlocksInRange(lines, groups[k..], at);
    Render(keep, Blocks(lines, groups[k..], at))
  }

  lemma {:induction false} RemainingStep(lines: seq<Text>, keep: seq<Text>, groups: seq<Group>, k: nat, at: nat)
    requires GroupsOk(lines, groups) && k < |groups| && |keep| == |lines| && at <= groups[k].startLine
    requires GroupOk(lines, groups[k])
    ensures k + 1 < |groups| ==> groups[k].endLine <= groups[k + 1].startLine
    ensures Remaining(lines, keep, groups, k, at)
         == Concat(keep[at..groups[k].startLine]) + GroupText(lines, groups[k])
            + Remaining(lines, keep, groups, k + 1, groups[k].endLine)
  {
    SuffixOk(lines, groups, k);
    SuffixOk(lines, groups, k + 1);
    assert groups[k..][0] == groups[k] && groups[k..][1..] == groups[k + 1..];
    RenderGroup(lines, keep, groups[k..], at);
  }

  /** Keep untouched original lines, rewrite touched lines in the normalized text. */
  method ApplyPreservingLines(original: Text, normalized: Text, spans: seq<Span>) returns (r: Result<Text>)
    requires Planned(normalized, spans)
    ensures r.Ok? <==> |SplitLines(original)| == |SplitLines(normalized)|
    ensures r.Err? ==> r.error == DifferentLineCount
    ensures r.Ok? ==> r.value == Render(SplitLines(original), Plan(normalized, spans))
  {
    var keep := SplitWithEndings(original);
    var bounds := LineSpans(normalized);
    if |keep| != |bounds| {
      return Err(DifferentLineCount);
    }
    ghost var lines := SplitLines(normalized);
    PlannedInText(normalized, spans);
    var built := BuildGroups(bounds, spans, lines);
    var groups := built.value;
    GroupAllOk(lines, spans);
    var text := RenderGroups(keep, normalized, bounds, groups, lines);
    return Ok(text);
  }

  lemma {:induction false} RemainingEnd(lines: seq<Text>, keep: seq<Text>, groups: seq<Group>, at: nat)
    requires GroupsOk(lines, groups) && |keep| == |lines| && at <= |lines|
    ensures Remaining(lines, keep, groups, |groups|, at) == Concat(keep[at..])
  {
    assert groups[|groups|..] == [];
    RenderKept(keep, at, |keep|);
    assert keep[at..|keep|] == keep[at..];
  }

  lemma {:induction false} RemainingStart(lines: seq<Text>, keep: seq<Text>, groups: seq<Group>)
    requires GroupsOk(lines, groups) && |keep| == |lines|
    ensures BlocksWithin(Blocks(lines, groups, 0), |keep|)
    ensures Remaining(lines, keep, groups, 0, 0) == Render(keep, Blocks(lines, groups, 0))
  {
    BlocksInRange(lines, groups, 0);
    assert groups[0..] == groups;
  }

  lemma {:induction false} BoundsAre(lines: seq<Text>, bounds: seq<LineSpan>, i: nat)
    requires Spans(lines, bounds) && i < |lines|
    ensures bounds[i] == LineSpan(Offset(lines, i), Offset(lines, i + 1))
  {
  }

  lemma {:induction false} GroupWindow(normalized: Text, lines: seq<Text>, g: Group)
    requires lines == SplitLines(normalized) && GroupOk(lines, g)
    ensures var a, b := Offset(lines, g.startLine), Offset(lines, g.endLine);
      && a <= b <= |normalized| && Ordered(g.spans, a, a + |normalized[a..b]|)
      && GroupText(lines, g) == Substitute(normalized[a..b], a, g.spans, a)
  {
    ConcatSplit(normalized);
    OffsetsCut(lines, g.startLine, g.endLine);
  }

  /** Rewrite one group of the normalized text. */
  method RewriteGroup(normalized: Text, bounds: seq<LineSpan>, g: Group, ghost lines: seq<Text>) returns (text: Text)
    requires lines == SplitLines(normalized) && Spans(lines, bounds) && GroupOk(lines, g)
    ensures text == GroupText(lines, g)
  {
    GroupWindow(normalized, lines, g);
    var groupStart, groupEnd := bounds[g.startLine].start, bounds[g.endLine - 1].end;
    BoundsAre(lines, bounds, g.startLine);
    BoundsAre(lines, bounds, g.endLine - 1);
    text := ApplyReplacements(normalized[groupStart..groupEnd], g.spans, groupStart);
  }

  method RenderGroups(keep: seq<Text>, normalized: Text, bounds: seq<LineSpan>, groups: seq<Group>, ghost lines: seq<Text>)
    returns (result: Text)
    requires lines == SplitLines(normalized) && Spans(lines, bounds) && |keep| == |lines| && GroupsOk(lines, groups)
    ensures BlocksWithin(Blocks(lines, groups, 0), |keep|)
    ensures result == Render(keep, Blocks(lines, groups, 0))
  {
    result := [];
    var at: nat := 0;
    RemainingStart(lines, keep, groups);
    for k := 0 to |groups|
      invariant at <= |lines| && (k < |groups| ==> at <= groups[k].startLine)
      invariant Remaining(lines, keep, groups, 0, 0) == result + Remaining(lines, keep, groups, k, at)
    {
      var g := groups[k];
      assert GroupOk(lines, g);
      RemainingStep(lines, keep, groups, k, at);
      var text := RewriteGroup(normalized, bounds, g, lines);
      Regroup(result, Concat(keep[at..g.startLine]), text, Remaining(lines, keep, groups, k + 1, g.endLine));
      result := result + Concat(keep[at..g.startLine]) + text;
      at := g.endLine;
    }
    RemainingEnd(lines, keep, groups, at);
    result := result + Concat(keep[at..]);
  }
}

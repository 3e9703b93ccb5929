/** Replacement that keeps untouched lines verbatim: spans are grouped by the lines they touch,
    groups are rewritten in the normalized text, and every other line is the original one. */
module LineGroups {
  import opened Lines
  import opened BatchEdit

  // ----- Line offsets -----

  function Offset(lines: seq<Text>, i: nat): nat
    requires i <= |lines|
  {
    if i == 0 then 0 else Offset(lines, i - 1) + |lines[i - 1]|
  }

  lemma {:induction false} OffsetMonotone(lines: seq<Text>, i: nat, j: nat)
    requires i <= j <= |lines|
    ensures Offset(lines, i) <= Offset(lines, j)
    decreases j
  {
    if i < j {
      OffsetMonotone(lines, i, j - 1);
    }
  }

  /** Lines cut their text at the offsets. */
  lemma {:induction false} OffsetsCut(lines: seq<Text>, i: nat, j: nat)
    requires i <= j <= |lines|
    ensures Offset(lines, |lines|) == |Concat(lines)|
    ensures Offset(lines, i) <= Offset(lines, j) <= |Concat(lines)|
    ensures Concat(lines)[Offset(lines, i)..Offset(lines, j)] == Concat(lines[i..j])
  {
    PrefixLength(lines, i);
    PrefixLength(lines, j);
    PrefixLength(lines, |lines|);
    assert lines[..|lines|] == lines;
    OffsetMonotone(lines, i, j);
    OffsetMonotone(lines, j, |lines|);
    ConcatAppend(lines[..i], lines[i..j]);
    ConcatAppend(lines[..j], lines[j..]);
    assert lines[..j] == lines[..i] + lines[i..j] && lines == lines[..j] + lines[j..];
    var a, b, c := Concat(lines[..i]), Concat(lines[i..j]), Concat(lines[j..]);
    assert Concat(lines) == a + b + c;
    assert (a + b + c)[|a|..|a| + |b|] == b;
  }

  lemma {:induction false} PrefixLength(lines: seq<Text>, i: nat)
    requires i <= |lines|
    ensures |Concat(lines[..i])| == Offset(lines, i)
  {
    if i > 0 {
      PrefixLength(lines, i - 1);
      ConcatSnoc(lines[..i - 1], lines[i - 1]);
      assert lines[..i] == lines[..i - 1] + [lines[i - 1]];
    }
  }

  /** The line, below `k`, that holds position `pos`. */
  function LineAt(lines: seq<Text>, pos: nat, k: nat): (i: nat)
    requires k <= |lines| && pos < Offset(lines, k)
    ensures i < k && Offset(lines, i) <= pos < Offset(lines, i + 1)
  {
    if Offset(lines, k - 1) <= pos then k - 1 else LineAt(lines, pos, k - 1)
  }

  predicate InText(lines: seq<Text>, span: Span) {
    span.length > 0 && span.End() <= Offset(lines, |lines|)
  }

  function StartLine(lines: seq<Text>, span: Span): nat
    requires InText(lines, span)
  {
    LineAt(lines, span.start, |lines|)
  }

  function EndLine(lines: seq<Text>, span: Span): nat
    requires InText(lines, span)
  {
    LineAt(lines, span.End() - 1, |lines|) + 1
  }

  /** The span touches line `i`. */
  predicate Hits(lines: seq<Text>, span: Span, i: nat)
    requires i < |lines|
  {
    span.start < Offset(lines, i + 1) && Offset(lines, i) < span.End()
  }

  /** A span touches exactly the lines of its range. */
  lemma {:induction false} RangeIsHits(lines: seq<Text>, span: Span, i: nat)
    requires InText(lines, span) && i < |lines|
    ensures StartLine(lines, span) < EndLine(lines, span) <= |lines|
    ensures Hits(lines, span, i) <==> StartLine(lines, span) <= i < EndLine(lines, span)
  {
    var a, b := StartLine(lines, span), EndLine(lines, span);
    if b <= a {
      OffsetMonotone(lines, b, a);
      assert false;
    }
    if i < a {
      OffsetMonotone(lines, i + 1, a);
    } else {
      OffsetMonotone(lines, a + 1, i + 1);
    }
    if b <= i {
      OffsetMonotone(lines, b, i);
    } else {
      OffsetMonotone(lines, i, b - 1);
    }
  }

  // ----- Groups -----

  datatype Group = Group(startLine: nat, endLine: nat, spans: seq<Span>)

  function AddSpan(lines: seq<Text>, groups: seq<Group>, span: Span): seq<Group>
    requires InText(lines, span)
  {
    Merge(groups, StartLine(lines, span), EndLine(lines, span), span)
  }

  /** A span that starts on a line of the last group joins it; otherwise it opens a group. */
  function Merge(groups: seq<Group>, a: nat, b: nat, span: Span): seq<Group> {
    if groups != [] && a < groups[|groups| - 1].endLine then
      var last := groups[|groups| - 1];
      groups[..|groups| - 1] + [Group(last.startLine, if b > last.endLine then b else last.endLine, last.spans + [span])]
    else groups + [Group(a, b, [span])]
  }

  predicate AllInText(lines: seq<Text>, spans: seq<Span>) {
    forall i :: 0 <= i < |spans| ==> InText(lines, spans[i])
  }

  function GroupAll(lines: seq<Text>, spans: seq<Span>): seq<Group>
    requires AllInText(lines, spans)
  {
    if spans == [] then [] else
      AddSpan(lines, GroupAll(lines, spans[..|spans| - 1]), spans[|spans| - 1])
  }

  function AllSpans(groups: seq<Group>): seq<Span> {
    if groups == [] then [] else groups[0].spans + AllSpans(groups[1..])
  }

  lemma {:induction false} AllSpansSnoc(groups: seq<Group>, g: Group)
    ensures AllSpans(groups + [g]) == AllSpans(groups) + g.spans
  {
    if groups == [] {
      assert groups + [g] == [g] && [g][1..] == [];
    } else {
      AllSpansSnoc(groups[1..], g);
      assert (groups + [g])[1..] == groups[1..] + [g];
    }
  }

  ghost predicate HitBySome(lines: seq<Text>, spans: seq<Span>, i: nat)
    requires i < |lines|
  {
    exists k :: 0 <= k < |spans| && Hits(lines, spans[k], i)
  }

  /** A group covers a run of lines, each touched by one of its spans, and holds them in order. */
  ghost predicate GroupOk(lines: seq<Text>, g: Group) {
    && g.startLine < g.endLine <= |lines|
    && g.spans != []
    && Ordered(g.spans, Offset(lines, g.startLine), Offset(lines, g.endLine))
    && (forall i :: g.startLine <= i < g.endLine ==> HitBySome(lines, g.spans, i))
  }

  ghost predicate GroupsOk(lines: seq<Text>, groups: seq<Group>) {
    && (forall i :: 0 <= i < |groups| ==> GroupOk(lines, groups[i]))
    && (forall i, j :: 0 <= i < j < |groups| ==> groups[i].endLine <= groups[j].startLine)
  }

  lemma {:induction false} OrderedSnoc(spans: seq<Span>, s: Span, lo: nat, hi: nat, hi': nat)
    requires Ordered(spans, lo, hi) && s.End() <= hi'
    requires lo <= s.start && (spans != [] ==> spans[|spans| - 1].End() <= s.start)
    ensures Ordered(spans + [s], lo, hi')
  {
    if spans == [] {
      assert spans + [s] == [s] && [s][1..] == [];
    } else {
      OrderedBounds(spans[1..], spans[0].End(), hi);
      if |spans| > 1 {
        assert spans[1..][|spans| - 2] == spans[|spans| - 1];
      }
      OrderedSnoc(spans[1..], s, spans[0].End(), hi, hi');
      assert (spans + [s])[1..] == spans[1..] + [s];
    }
  }

  lemma {:induction false} HitsGrow(lines: seq<Text>, spans: seq<Span>, s: Span, i: nat)
    requires i < |lines| && (HitBySome(lines, spans, i) || Hits(lines, s, i))
    ensures HitBySome(lines, spans + [s], i)
  {
    if Hits(lines, s, i) {
      assert (spans + [s])[|spans|] == s;
    } else {
      var k :| 0 <= k < |spans| && Hits(lines, spans[k], i);
      assert (spans + [s])[k] == spans[k];
    }
  }

  /** A group on its own, for a span that starts past the last one. */
  lemma {:induction false} FreshGroupOk(lines: seq<Text>, span: Span)
    requires InText(lines, span)
    ensures GroupOk(lines, Group(StartLine(lines, span), EndLine(lines, span), [span]))
  {
    var a, b := StartLine(lines, span), EndLine(lines, span);
    RangeIsHits(lines, span, a);
    assert [span][1..] == [];
    forall i | a <= i < b ensures HitBySome(lines, [span], i) {
      RangeIsHits(lines, span, i);
      assert [span][0] == span;
    }
  }

  lemma {:induction false} MergedGroupOk(lines: seq<Text>, g: Group, span: Span)
    requires GroupOk(lines, g) && InText(lines, span) && StartLine(lines, span) < g.endLine
    requires g.spans[|g.spans| - 1].End() <= span.start
    ensures var b := EndLine(lines, span);
      GroupOk(lines, Group(g.startLine, if b > g.endLine then b else g.endLine, g.spans + [span]))
  {
    var a, b := StartLine(lines, span), EndLine(lines, span);
    var end := if b > g.endLine then b else g.endLine;
    RangeIsHits(lines, span, a);
    OrderedBounds(g.spans, Offset(lines, g.startLine), Offset(lines, g.endLine));
    OffsetMonotone(lines, b, end);
    OrderedSnoc(g.spans, span, Offset(lines, g.startLine), Offset(lines, g.endLine), Offset(lines, end));
    forall i | g.startLine <= i < end ensures HitBySome(lines, g.spans + [span], i) {
      if i >= g.endLine {
        RangeIsHits(lines, span, i);
      }
      HitsGrow(lines, g.spans, span, i);
    }
  }

  lemma {:induction false} ReplaceLast(lines: seq<Text>, groups: seq<Group>, g: Group)
    requires groups != [] && GroupsOk(lines, groups) && GroupOk(lines, g)
    requires g.startLine == groups[|groups| - 1].startLine
    ensures GroupsOk(lines, groups[..|groups| - 1] + [g])
  {
  }

  lemma {:induction false} PushGroup(lines: seq<Text>, groups: seq<Group>, g: Group)
    requires GroupsOk(lines, groups) && GroupOk(lines, g)
    requires groups != [] ==> groups[|groups| - 1].endLine <= g.startLine
    ensures GroupsOk(lines, groups + [g])
  {
    if groups != [] {
      assert GroupOk(lines, groups[|groups| - 1]);
    }
  }

  lemma {:induction false} GrownSpans(groups: seq<Group>, g: Group, span: Span)
    requires groups != [] && g.spans == groups[|groups| - 1].spans + [span]
    ensures AllSpans(groups[..|groups| - 1] + [g]) == AllSpans(groups) + [span]
  {
    var init, last := groups[..|groups| - 1], groups[|groups| - 1];
    AllSpansSnoc(init, g);
    AllSpansSnoc(init, last);
    assert groups == init + [last];
    assert AllSpans(init) + (last.spans + [span]) == AllSpans(init) + last.spans + [span];
  }

  lemma {:induction false} AddSpanOk(lines: seq<Text>, groups: seq<Group>, span: Span)
    requires GroupsOk(lines, groups) && InText(lines, span)
    requires groups != [] ==> var last := groups[|groups| - 1].spans; last != [] && last[|last| - 1].End() <= span.start
    ensures GroupsOk(lines, AddSpan(lines, groups, span))
    ensures AllSpans(AddSpan(lines, groups, span)) == AllSpans(groups) + [span]
  {
    var a, b := StartLine(lines, span), EndLine(lines, span);
    if groups != [] && a < groups[|groups| - 1].endLine {
      var last := groups[|groups| - 1];
      var g := Group(last.startLine, if b > last.endLine then b else last.endLine, last.spans + [span]);
      MergedGroupOk(lines, last, span);
      ReplaceLast(lines, groups, g);
      GrownSpans(groups, g, span);
    } else {
      FreshGroupOk(lines, span);
      PushGroup(lines, groups, Group(a, b, [span]));
      AllSpansSnoc(groups, Group(a, b, [span]));
    }
  }

  lemma {:induction false} LastSpan(lines: seq<Text>, groups: seq<Group>)
    requires groups != [] && GroupsOk(lines, groups)
    ensures var last := groups[|groups| - 1].spans;
      last != [] && AllSpans(groups) != [] && AllSpans(groups)[|AllSpans(groups)| - 1] == last[|last| - 1]
  {
    var n := |groups| - 1;
    assert GroupOk(lines, groups[n]);
    assert groups == groups[..n] + [groups[n]];
    AllSpansSnoc(groups[..n], groups[n]);
  }

  lemma {:induction false} LastSpanBefore(lines: seq<Text>, groups: seq<Group>, spans: seq<Span>)
    requires spans != [] && PairwiseDisjoint(spans) && GroupsOk(lines, groups) && groups != []
    requires AllSpans(groups) == spans[..|spans| - 1]
    ensures var last := groups[|groups| - 1].spans;
      last != [] && last[|last| - 1].End() <= spans[|spans| - 1].start
  {
    LastSpan(lines, groups);
    var n := |spans| - 1;
    assert spans[..n][n - 1] == spans[n - 1];
  }

  lemma {:induction false} GroupStep(lines: seq<Text>, groups: seq<Group>, spans: seq<Span>)
    requires spans != [] && PairwiseDisjoint(spans) && InText(lines, spans[|spans| - 1])
    requires GroupsOk(lines, groups) && AllSpans(groups) == spans[..|spans| - 1]
    ensures GroupsOk(lines, AddSpan(lines, groups, spans[|spans| - 1]))
    ensures AllSpans(AddSpan(lines, groups, spans[|spans| - 1])) == spans
  {
    if groups != [] {
      LastSpanBefore(lines, groups, spans);
    }
    AddSpanOk(lines, groups, spans[|spans| - 1]);
    assert spans == spans[..|spans| - 1] + [spans[|spans| - 1]];
  }

  /** Grouping loses no span, and keeps groups apart. */
  lemma {:induction false} GroupAllOk(lines: seq<Text>, spans: seq<Span>)
    requires AllInText(lines, spans) && PairwiseDisjoint(spans)
    ensures GroupsOk(lines, GroupAll(lines, spans)) && AllSpans(GroupAll(lines, spans)) == spans
  {
    if spans != [] {
      GroupAllOk(lines, spans[..|spans| - 1]);
      GroupStep(lines, GroupAll(lines, spans[..|spans| - 1]), spans);
    }
  }

  // ----- Blocks -----

  /** The output, block by block: a line kept as it is, or the rewritten text of a group. */
  datatype Block = Kept(line: nat) | Fresh(text: Text)

  function KeepRange(a: nat, b: nat): seq<Block>
    requires a <= b
  {
    seq(b - a, i requires 0 <= i => Kept(a + i))
  }

  function GroupText(lines: seq<Text>, g: Group): Text
    requires g.startLine <= g.endLine <= |lines|
    requires Ordered(g.spans, Offset(lines, g.startLine), Offset(lines, g.endLine))
  {
    OffsetsCut(lines, g.startLine, g.endLine);
    var a, b := Offset(lines, g.startLine), Offset(lines, g.endLine);
    Substitute(Concat(lines)[a..b], a, g.spans, a)
  }

  function Blocks(lines: seq<Text>, groups: seq<Group>, at: nat): seq<Block>
    requires GroupsOk(lines, groups) && at <= |lines| && (groups != [] ==> at <= groups[0].startLine)
    decreases |groups|
  {
    if groups == [] then KeepRange(at, |lines|) else
      assert GroupOk(lines, groups[0]);
      KeepRange(at, groups[0].startLine) + [Fresh(GroupText(lines, groups[0]))]
        + Blocks(lines, groups[1..], groups[0].endLine)
  }

  ghost predicate BlocksWithin(blocks: seq<Block>, n: nat) {
    forall k :: 0 <= k < |blocks| && blocks[k].Kept? ==> blocks[k].line < n
  }

  /** The blocks over a given set of lines to keep. */
  function Render(keep: seq<Text>, blocks: seq<Block>): Text
    requires BlocksWithin(blocks, |keep|)
  {
    if blocks == [] then [] else
      (if blocks[0].Kept? then keep[blocks[0].line] else blocks[0].text) + Render(keep, blocks[1..])
  }

  lemma {:induction false} BlocksInRange(lines: seq<Text>, groups: seq<Group>, at: nat)
    requires GroupsOk(lines, groups) && at <= |lines| && (groups != [] ==> at <= groups[0].startLine)
    ensures BlocksWithin(Blocks(lines, groups, at), |lines|)
    decreases |groups|
  {
    if groups != [] {
      assert GroupOk(lines, groups[0]);
      BlocksInRange(lines, groups[1..], groups[0].endLine);
    }
  }

  lemma {:induction false} RenderAppend(keep: seq<Text>, a: seq<Block>, b: seq<Block>)
    requires BlocksWithin(a, |keep|) && BlocksWithin(b, |keep|)
    ensures Render(keep, a + b) == Render(keep, a) + Render(keep, b)
  {
    if a == [] {
      assert a + b == b;
    } else {
      RenderAppend(keep, a[1..], b);
      assert (a + b)[1..] == a[1..] + b;
    }
  }

  lemma {:induction false} RenderKept(keep: seq<Text>, a: nat, b: nat)
    requires a <= b <= |keep|
    ensures Render(keep, KeepRange(a, b)) == Concat(keep[a..b])
    decreases b - a
  {
    if a < b {
      RenderKept(keep, a + 1, b);
      assert KeepRange(a, b)[1..] == KeepRange(a + 1, b);
      assert keep[a..b][1..] == keep[a + 1..b];
    }
  }

  /** One group: its kept lines, its text, then the rest. */
  lemma {:induction false} RenderGroup(lines: seq<Text>, keep: seq<Text>, groups: seq<Group>, at: nat)
    requires groups != [] && GroupsOk(lines, groups) && at <= groups[0].startLine && |keep| == |lines|
    requires GroupOk(lines, groups[0])
    ensures GroupsOk(lines, groups[1..]) && (|groups| > 1 ==> groups[0].endLine <= groups[1..][0].startLine)
    ensures BlocksWithin(Blocks(lines, groups, at), |keep|)
    ensures BlocksWithin(Blocks(lines, groups[1..], groups[0].endLine), |keep|)
    ensures Render(keep, Blocks(lines, groups, at))
         == Concat(keep[at..groups[0].startLine]) + GroupText(lines, groups[0])
            + Render(keep, Blocks(lines, groups[1..], groups[0].endLine))
  {
    var g := groups[0];
    BlocksInRange(lines, groups, at);
    BlocksInRange(lines, groups[1..], g.endLine);
    var rest := Blocks(lines, groups[1..], g.endLine);
    var one := [Fresh(GroupText(lines, g))];
    RenderAppend(keep, KeepRange(at, g.startLine) + one, rest);
    RenderAppend(keep, KeepRange(at, g.startLine), one);
    RenderKept(keep, at, g.startLine);
    assert one[1..] == [];
    assert Render(keep, one) == GroupText(lines, g);
  }

  // ----- Refinement of plain replacement -----

  lemma {:induction false} Regroup(a: Text, b: Text, c: Text, d: Text)
    ensures (a + b) + c + d == a + (b + c + d) == a + b + (c + d)
  {
  }

  lemma {:induction false} SliceOfSlice(s: Text, a: nat, b: nat, i: nat, j: nat)
    requires a <= i <= j <= b <= |s|
    ensures s[a..b][i - a..j - a] == s[i..j]
  {
    var w := s[a..b];
    forall k | 0 <= k < j - i ensures w[i - a..j - a][k] == s[i..j][k] {
      assert w[i - a..j - a][k] == w[i - a + k] == s[i + k];
    }
  }

  lemma {:induction false} SubstituteFrom(s: Text, spans: seq<Span>, p: nat, q: nat)
    requires p <= q && Ordered(spans, q, |s|)
    ensures Ordered(spans, p, |s|) && q <= |s|
    ensures Substitute(s, 0, spans, p) == s[p..q] + Substitute(s, 0, spans, q)
  {
    OrderedBounds(spans, q, |s|);
    if spans == [] {
      assert s[p..] == s[p..q] + s[q..];
    } else {
      var start := spans[0].start;
      assert s[p..start] == s[p..q] + s[q..start];
      Regroup(s[p..q], s[q..start], spans[0].text, Substitute(s, 0, spans[1..], spans[0].End()));
    }
  }

  /** Substituting in a window and then behind it is substituting in the whole. */
  lemma {:induction false} SubstituteSplit(s: Text, a: nat, b: nat, xs: seq<Span>, ys: seq<Span>, from: nat)
    requires a <= from && b <= |s| && Ordered(xs, from, b) && Ordered(ys, b, |s|)
    ensures a <= b && Ordered(xs + ys, from, |s|)
    ensures Substitute(s, 0, xs + ys, from) == Substitute(s[a..b], a, xs, from) + Substitute(s, 0, ys, b)
    decreases |xs|
  {
    OrderedBounds(xs, from, b);
    if xs == [] {
      assert xs + ys == ys;
      SubstituteFrom(s, ys, from, b);
      SliceOfSlice(s, a, b, from, b);
      assert s[a..b][from - a..] == s[a..b][from - a..b - a];
    } else {
      SubstituteSplit(s, a, b, xs[1..], ys, xs[0].End());
      SubstituteSplitOne(s, a, b, xs, ys, from);
    }
  }

  lemma {:induction false} SubstituteSplitOne(s: Text, a: nat, b: nat, xs: seq<Span>, ys: seq<Span>, from: nat)
    requires xs != [] && a <= from <= xs[0].start && xs[0].End() <= b <= |s|
    requires Ordered(xs, from, b) && Ordered(ys, b, |s|) && Ordered(xs[1..] + ys, xs[0].End(), |s|)
    requires Substitute(s, 0, xs[1..] + ys, xs[0].End())
          == Substitute(s[a..b], a, xs[1..], xs[0].End()) + Substitute(s, 0, ys, b)
    ensures Ordered(xs + ys, from, |s|)
    ensures Substitute(s, 0, xs + ys, from) == Substitute(s[a..b], a, xs, from) + Substitute(s, 0, ys, b)
  {
    var all, gap, text := xs + ys, s[from..xs[0].start], xs[0].text;
    var inner, outer := Substitute(s[a..b], a, xs[1..], xs[0].End()), Substitute(s, 0, ys, b);
    assert all[1..] == xs[1..] + ys && all[0] == xs[0];
    SubstituteHead(s, 0, all, xs[1..] + ys, from);
    assert Substitute(s, 0, all, from) == gap + text + (inner + outer);
    assert Substitute(s[a..b], a, xs, from) == gap + text + inner by {
      SubstituteHead(s[a..b], a, xs, xs[1..], from);
      SliceOfSlice(s, a, b, from, xs[0].start);
    }
    Assoc(gap + text, inner, outer);
  }

  /** One group, seen in the whole text. */
  lemma {:induction false} GroupInPlain(lines: seq<Text>, g: Group, rest: seq<Span>, at: nat)
    requires GroupOk(lines, g) && at <= g.startLine && Ordered(rest, Offset(lines, g.endLine), |Concat(lines)|)
    ensures Ordered(g.spans + rest, Offset(lines, at), |Concat(lines)|)
    ensures Substitute(Concat(lines), 0, g.spans + rest, Offset(lines, at))
         == Concat(lines[at..g.startLine]) + GroupText(lines, g) + Substitute(Concat(lines), 0, rest, Offset(lines, g.endLine))
  {
    OffsetsCut(lines, at, g.startLine);
    OffsetsCut(lines, g.startLine, g.endLine);
    var a, b := Offset(lines, g.startLine), Offset(lines, g.endLine);
    var norm := Concat(lines);
    SubstituteSplit(norm, a, b, g.spans, rest, a);
    SubstituteFrom(norm, g.spans + rest, Offset(lines, at), a);
    Assoc(Concat(lines[at..g.startLine]), GroupText(lines, g), Substitute(norm, 0, rest, b));
  }

  lemma {:induction false} PlainTail(lines: seq<Text>, at: nat)
    requires at <= |lines|
    ensures Offset(lines, at) <= |Concat(lines)|
    ensures Substitute(Concat(lines), 0, [], Offset(lines, at)) == Concat(lines[at..])
  {
    OffsetsCut(lines, at, |lines|);
    assert lines[at..|lines|] == lines[at..];
    var norm := Concat(lines);
    assert norm[Offset(lines, at)..|norm|] == norm[Offset(lines, at)..];
  }

  /** Over the normalized lines themselves, the blocks are plain replacement. */
  lemma {:induction false} BlocksArePlain(lines: seq<Text>, groups: seq<Group>, at: nat)
    requires GroupsOk(lines, groups) && at <= |lines| && (groups != [] ==> at <= groups[0].startLine)
    ensures BlocksWithin(Blocks(lines, groups, at), |lines|)
    ensures Ordered(AllSpans(groups), Offset(lines, at), |Concat(lines)|)
    ensures Render(lines, Blocks(lines, groups, at)) == Substitute(Concat(lines), 0, AllSpans(groups), Offset(lines, at))
    decreases |groups|
  {
    BlocksInRange(lines, groups, at);
    if groups == [] {
      RenderKept(lines, at, |lines|);
      PlainTail(lines, at);
      assert lines[at..|lines|] == lines[at..];
    } else {
      assert GroupOk(lines, groups[0]);
      RenderGroup(lines, lines, groups, at);
      BlocksArePlain(lines, groups[1..], groups[0].endLine);
      GroupInPlain(lines, groups[0], AllSpans(groups[1..]), at);
    }
  }

  // ----- Exactly the untouched lines are kept -----

  ghost predicate KeptIn(blocks: seq<Block>, i: nat) {
    exists k :: 0 <= k < |blocks| && blocks[k] == Kept(i)
  }

  ghost predicate InGroup(groups: seq<Group>, i: nat) {
    exists k :: 0 <= k < |groups| && groups[k].startLine <= i < groups[k].endLine
  }

  lemma {:induction false} KeptInAppend(a: seq<Block>, b: seq<Block>, i: nat)
    ensures KeptIn(a + b, i) <==> KeptIn(a, i) || KeptIn(b, i)
  {
    if KeptIn(a, i) {
      var k :| 0 <= k < |a| && a[k] == Kept(i);
      assert (a + b)[k] == Kept(i);
    }
    if KeptIn(b, i) {
      var k :| 0 <= k < |b| && b[k] == Kept(i);
      assert (a + b)[|a| + k] == Kept(i);
    }
  }

  lemma {:induction false} KeptInRange(a: nat, b: nat, i: nat)
    requires a <= b
    ensures KeptIn(KeepRange(a, b), i) <==> a <= i < b
  {
    if a <= i < b {
      assert KeepRange(a, b)[i - a] == Kept(i);
    }
  }

  lemma {:induction false} InGroupCons(groups: seq<Group>, i: nat)
    requires groups != []
    ensures InGroup(groups, i) <==> groups[0].startLine <= i < groups[0].endLine || InGroup(groups[1..], i)
  {
    if InGroup(groups[1..], i) {
      var k :| 0 <= k < |groups[1..]| && groups[1..][k].startLine <= i < groups[1..][k].endLine;
      assert groups[k + 1] == groups[1..][k];
    }
    if InGroup(groups, i) {
      var k :| 0 <= k < |groups| && groups[k].startLine <= i < groups[k].endLine;
      assert k > 0 ==> groups[1..][k - 1] == groups[k];
    }
  }

  lemma {:induction false} KeptIsUngrouped(lines: seq<Text>, groups: seq<Group>, at: nat, i: nat)
    requires GroupsOk(lines, groups) && at <= |lines| && (groups != [] ==> at <= groups[0].startLine)
    ensures KeptIn(Blocks(lines, groups, at), i) <==> at <= i < |lines| && !InGroup(groups, i)
    decreases |groups|
  {
    if groups == [] {
      KeptInRange(at, |lines|, i);
    } else {
      var g, rest := groups[0], groups[1..];
      assert GroupOk(lines, g);
      KeptIsUngrouped(lines, rest, g.endLine, i);
      InGroupCons(groups, i);
      var kept, text, tail := KeepRange(at, g.startLine), [Fresh(GroupText(lines, g))], Blocks(lines, rest, g.endLine);
      KeptInAppend(kept + text, tail, i);
      KeptInAppend(kept, text, i);
      KeptInRange(at, g.startLine, i);
      if i < g.endLine && rest != [] {
        BeforeIsUngrouped(lines, rest, i);
      }
    }
  }

  lemma {:induction false} BeforeIsUngrouped(lines: seq<Text>, groups: seq<Group>, i: nat)
    requires groups != [] && GroupsOk(lines, groups) && i < groups[0].startLine
    ensures !InGroup(groups, i)
  {
    assert GroupOk(lines, groups[0]);
  }

  lemma {:induction false} HitByAppend(lines: seq<Text>, xs: seq<Span>, ys: seq<Span>, i: nat)
    requires i < |lines|
    ensures HitBySome(lines, xs + ys, i) <==> HitBySome(lines, xs, i) || HitBySome(lines, ys, i)
  {
    if HitBySome(lines, xs, i) {
      var k :| 0 <= k < |xs| && Hits(lines, xs[k], i);
      assert (xs + ys)[k] == xs[k];
    }
    if HitBySome(lines, ys, i) {
      var k :| 0 <= k < |ys| && Hits(lines, ys[k], i);
      assert (xs + ys)[|xs| + k] == ys[k];
    }
  }

  /** A line is in a group exactly when some span touches it. */
  lemma {:induction false} GroupedIsHit(lines: seq<Text>, groups: seq<Group>, i: nat)
    requires GroupsOk(lines, groups) && i < |lines|
    ensures InGroup(groups, i) <==> HitBySome(lines, AllSpans(groups), i)
    decreases |groups|
  {
    if groups != [] {
      var g, rest := groups[0], groups[1..];
      assert GroupOk(lines, g);
      GroupedIsHit(lines, rest, i);
      InGroupCons(groups, i);
      HitByAppend(lines, g.spans, AllSpans(rest), i);
      if !(g.startLine <= i < g.endLine) {
        MissedByOthers(lines, g, i);
      }
    }
  }

  lemma {:induction false} MissedByOthers(lines: seq<Text>, g: Group, i: nat)
    requires GroupOk(lines, g) && i < |lines| && !(g.startLine <= i < g.endLine)
    ensures forall k :: 0 <= k < |g.spans| ==> !Hits(lines, g.spans[k], i)
  {
    OrderedBounds(g.spans, Offset(lines, g.startLine), Offset(lines, g.endLine));
    if i < g.startLine {
      OffsetMonotone(lines, i + 1, g.startLine);
    } else {
      OffsetMonotone(lines, g.endLine, i);
    }
  }
}

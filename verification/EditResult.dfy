/** What the text after a batch is, said of its characters and lines rather than of how it is made. */
module EditResult {
  import opened Lines
  import opened BatchEdit
  import opened LineGroups
  import opened GroupedEdit

  // ----- Plain replacement -----

  predicate CharAt(r: Text, p: int, c: char) {
    0 <= p < |r| && r[p] == c
  }

  /** Position `q` lies outside the spans, behind `k` of them. */
  predicate Between(plan: seq<Span>, q: nat, k: nat)
    requires k <= |plan|
  {
    (k > 0 ==> plan[k - 1].End() <= q) && (k < |plan| ==> q < plan[k].start)
  }

  /** Every replacement stands at its span, every character outside the spans stands as it was, each
      moved by the replacements before it, and there is nothing else. */
  ghost predicate ReplacesAll(base: Text, plan: seq<Span>, value: Text) {
    && (forall k :: 0 <= k < |plan| ==> StandsAt(value, plan[k].text, plan[k].start + Shift(plan, k)))
    && (forall q: nat, k: nat {:trigger Between(plan, q, k)} ::
          q < |base| && k <= |plan| && Between(plan, q, k) ==> CharAt(value, q + Shift(plan, k), base[q]))
    && |value| == |base| + Shift(plan, |plan|)
  }

  lemma {:induction false} SubstituteReplacesAll(base: Text, plan: seq<Span>)
    requires Ordered(plan, 0, |base|)
    ensures ReplacesAll(base, plan, Substitute(base, 0, plan, 0))
  {
    forall k | 0 <= k < |plan|
      ensures StandsAt(Substitute(base, 0, plan, 0), plan[k].text, plan[k].start + Shift(plan, k))
    {
      ReplacementLands(base, plan, 0, k);
    }
    forall q: nat, k: nat | q < |base| && k <= |plan| && Between(plan, q, k)
      ensures CharAt(Substitute(base, 0, plan, 0), q + Shift(plan, k), base[q])
    {
      UntouchedStays(base, plan, 0, q, k);
    }
    SubstituteLength(base, plan, 0);
  }

  // ----- Replacement that keeps lines -----

  /** Kept lines come in order, none twice. */
  ghost predicate KeptInOrder(blocks: seq<Block>) {
    forall j, k :: 0 <= j < k < |blocks| && blocks[j].Kept? && blocks[k].Kept? ==> blocks[j].line < blocks[k].line
  }

  ghost predicate KeptFrom(blocks: seq<Block>, at: nat) {
    forall k :: 0 <= k < |blocks| && blocks[k].Kept? ==> at <= blocks[k].line
  }

  /** The value is made of lines of the content and fresh texts, in an order that puts together two
      texts at once: over the lines of the content it is the value, and over the normalized lines it
      is the normalized text with all replacements. The lines kept are exactly those no replacement
      touches, in order: so the value differs from plain replacement in untouched lines only. */
  ghost predicate ReplacesKeepingLines(content: seq<Text>, lines: seq<Text>, plan: seq<Span>, value: Text) {
    && |content| == |lines|
    && exists blocks :: Weaves(content, lines, plan, value, blocks)
  }

  ghost predicate Weaves(content: seq<Text>, lines: seq<Text>, plan: seq<Span>, value: Text, blocks: seq<Block>)
    requires |content| == |lines|
  {
    && BlocksWithin(blocks, |lines|) && KeptInOrder(blocks)
    && (forall i: nat :: KeptIn(blocks, i) <==> i < |lines| && !HitBySome(lines, plan, i))
    && value == Render(content, blocks)
    && ReplacesAll(Concat(lines), plan, Render(lines, blocks))
  }

  lemma {:induction false} BlocksInOrder(lines: seq<Text>, groups: seq<Group>, at: nat)
    requires GroupsOk(lines, groups) && at <= |lines| && (groups != [] ==> at <= groups[0].startLine)
    ensures KeptInOrder(Blocks(lines, groups, at)) && KeptFrom(Blocks(lines, groups, at), at)
    decreases |groups|
  {
    if groups != [] {
      assert GroupOk(lines, groups[0]);
      var first, rest := groups[0], groups[1..];
      BlocksInOrder(lines, rest, first.endLine);
      OrderJoins(KeepRange(at, first.startLine), GroupText(lines, first), Blocks(lines, rest, first.endLine), at, first.endLine);
    }
  }

  lemma {:induction false} OrderJoins(kept: seq<Block>, text: Text, rest: seq<Block>, at: nat, next: nat)
    requires forall k :: 0 <= k < |kept| ==> kept[k] == Kept(at + k)
    requires at + |kept| <= next && KeptInOrder(rest) && KeptFrom(rest, next)
    ensures KeptInOrder(kept + [Fresh(text)] + rest) && KeptFrom(kept + [Fresh(text)] + rest, at)
  {
    var all, n := kept + [Fresh(text)] + rest, |kept| + 1;
    assert all[|kept|] == Fresh(text);
    assert forall k :: 0 <= k < |kept| ==> all[k] == kept[k];
    assert forall k :: n <= k < |all| ==> all[k] == rest[k - n];
  }

  lemma {:induction false} PlanKeepsOrder(normalized: Text, plan: seq<Span>)
    requires Planned(normalized, plan)
    ensures KeptInOrder(Plan(normalized, plan))
  {
    var lines := SplitLines(normalized);
    PlannedInText(normalized, plan);
    GroupAllOk(lines, plan);
    BlocksInOrder(lines, GroupAll(lines, plan), 0);
  }

  lemma {:induction false} RenderKeepsLines(content: seq<Text>, normalized: Text, plan: seq<Span>)
    requires Planned(normalized, plan) && |content| == |SplitLines(normalized)|
    ensures ReplacesKeepingLines(content, SplitLines(normalized), plan, Render(content, Plan(normalized, plan)))
  {
    GroupedRefinesPlain(normalized, plan);
    PlanKeepsOrder(normalized, plan);
    SubstituteReplacesAll(normalized, plan);
    ConcatSplit(normalized);
    assert Weaves(content, SplitLines(normalized), plan, Render(content, Plan(normalized, plan)), Plan(normalized, plan));
  }
}

/** One run of the edit tool on a text: match every edit, sort, refuse overlaps, replace, and the
    write-back of the result. */
module EditRun {
  import opened Lines
  import opened Normalize
  import opened Matching
  import opened BatchEdit
  import opened LineGroups
  import opened GroupedEdit
  import opened EditResult
  import opened Splice

  datatype Edit = Edit(oldText: Text, newText: Text)

  function MatchOne(base: Text, edit: Edit, index: nat): Result<Span> {
    match FindText(base, edit.oldText)
    case Missing => Err(OldTextNotFound(index))
    case Found(start, length, _) =>
      var occurrences := CountOccurrences(base, edit.oldText);
      if occurrences > 1 then Err(OldTextNotUnique(index, occurrences)) else Ok(Span(start, length, edit.newText))
  }

  function MatchAll(base: Text, edits: seq<Edit>): Result<seq<Span>> {
    if edits == [] then Ok([]) else
      var before :- MatchAll(base, edits[..|edits| - 1]);
      var span :- MatchOne(base, edits[|edits| - 1], |edits| - 1);
      Ok(before + [span])
  }

  predicate NeedsNormal(base: Text, edit: Edit) {
    var m := FindText(base, edit.oldText);
    m.Found? && m.normalized
  }

  predicate AnyNeedsNormal(base: Text, edits: seq<Edit>) {
    exists e :: e in edits && NeedsNormal(base, e)
  }

  /** The run goes over to normal forms exactly when some old text does not occur as it is, but does
      in normal form. */
  lemma {:induction false} NormalExactly(base: Text, edits: seq<Edit>)
    ensures AnyNeedsNormal(base, edits) <==>
              exists e :: e in edits && !Occurs(base, e.oldText) && NormalizeForMatch(e.oldText) != []
                          && Occurs(NormalizeForMatch(base), NormalizeForMatch(e.oldText))
  {
    forall e | e in edits
      ensures NeedsNormal(base, e) <==>
                !Occurs(base, e.oldText) && NormalizeForMatch(e.oldText) != []
                && Occurs(NormalizeForMatch(base), NormalizeForMatch(e.oldText))
    {
      FindTextExactly(base, e.oldText);
    }
  }

  function FirstEmpty(edits: seq<Edit>, i: nat): (k: nat)
    requires i <= |edits|
    ensures i <= k <= |edits|
    ensures forall j :: i <= j < k ==> edits[j].oldText != []
    ensures k < |edits| ==> edits[k].oldText == []
    decreases |edits| - i
  {
    if i == |edits| || edits[i].oldText == [] then i else FirstEmpty(edits, i + 1)
  }

  /** The sorted plan of a batch on its replacement base, or the reason there is none. */
  function PlanSpans(base: Text, edits: seq<Edit>): Result<seq<Span>> {
    var spans :- MatchAll(ReplacementBase(base, AnyNeedsNormal(base, edits)), edits);
    var sorted := SortByStart(spans);
    if NeighboursOverlap(sorted) then Err(EditsOverlap) else Ok(sorted)
  }

  // ----- What a plan is -----

  /** Where an edit lands. */
  function SpanOf(base: Text, edit: Edit): Span {
    match FindText(base, edit.oldText)
    case Missing => Span(0, 0, edit.newText)
    case Found(start, length, _) => Span(start, length, edit.newText)
  }

  function SpansOf(base: Text, edits: seq<Edit>): (r: seq<Span>)
    ensures |r| == |edits|
  {
    if edits == [] then [] else SpansOf(base, edits[..|edits| - 1]) + [SpanOf(base, edits[|edits| - 1])]
  }

  lemma {:induction false} SpansOfAt(base: Text, edits: seq<Edit>, i: nat)
    requires i < |edits|
    ensures SpansOf(base, edits)[i] == SpanOf(base, edits[i])
  {
    if i < |edits| - 1 {
      SpansOfAt(base, edits[..|edits| - 1], i);
    }
  }

  ghost predicate AllAccepted(base: Text, edits: seq<Edit>) {
    forall e :: e in edits ==> Accepted(base, e.oldText)
  }

  /** Matching succeeds exactly when every edit passes on its own, and gives each its span. */
  lemma {:induction false} MatchAllIsPointwise(base: Text, edits: seq<Edit>)
    ensures MatchAll(base, edits).Ok? <==> AllAccepted(base, edits)
    ensures MatchAll(base, edits).Ok? ==> MatchAll(base, edits).value == SpansOf(base, edits)
  {
    if edits != [] {
      var init, last := edits[..|edits| - 1], edits[|edits| - 1];
      MatchAllIsPointwise(base, init);
      MatchOneIsAccepted(base, last, |init|);
      AllAcceptedSnoc(base, init, last);
      assert edits == init + [last];
    }
  }

  lemma {:induction false} AllAcceptedSnoc(base: Text, edits: seq<Edit>, last: Edit)
    ensures AllAccepted(base, edits + [last]) <==> AllAccepted(base, edits) && Accepted(base, last.oldText)
  {
    assert forall e :: e in edits + [last] <==> e in edits || e == last;
  }

  lemma {:induction false} MatchOneIsAccepted(base: Text, edit: Edit, index: nat)
    ensures MatchOne(base, edit, index).Ok? <==> Accepted(base, edit.oldText)
    ensures MatchOne(base, edit, index).Ok? ==> MatchOne(base, edit, index).value == SpanOf(base, edit)
  {
  }

  ghost predicate NoEmptyOldText(edits: seq<Edit>) {
    forall e :: e in edits ==> e.oldText != []
  }

  lemma {:induction false} SpanSound(content: Text, edit: Edit, normalized: bool)
    requires edit.oldText != [] && (NeedsNormal(content, edit) ==> normalized)
    requires Accepted(ReplacementBase(content, normalized), edit.oldText)
    ensures var base := ReplacementBase(content, normalized);
      var span := SpanOf(base, edit);
      && span.length > 0 && span.End() <= |base| && span.text == edit.newText
      && (base[span.start..span.End()] == edit.oldText || base[span.start..span.End()] == NormalizeForMatch(edit.oldText))
  {
    SecondPassIsSound(content, edit.oldText, normalized);
  }

  lemma {:induction false} SpansSound(content: Text, edits: seq<Edit>, spans: seq<Span>)
    requires NoEmptyOldText(edits) && AllAccepted(ReplacementBase(content, AnyNeedsNormal(content, edits)), edits)
    requires multiset(spans) == multiset(SpansOf(ReplacementBase(content, AnyNeedsNormal(content, edits)), edits))
    ensures forall i :: 0 <= i < |spans| ==>
              spans[i].length > 0 && spans[i].End() <= |ReplacementBase(content, AnyNeedsNormal(content, edits))|
  {
    var normalized := AnyNeedsNormal(content, edits);
    var base := ReplacementBase(content, normalized);
    var all := SpansOf(base, edits);
    forall i | 0 <= i < |spans| ensures spans[i].length > 0 && spans[i].End() <= |base| {
      assert spans[i] in multiset(all);
      var k :| 0 <= k < |all| && all[k] == spans[i];
      SpansOfAt(base, edits, k);
      assert edits[k] in edits;
      SpanSound(content, edits[k], normalized);
    }
  }

  /** A plan is in order, pairwise disjoint, and inside the text it was made for. */
  lemma {:induction false} PlanIsSound(content: Text, edits: seq<Edit>)
    requires NoEmptyOldText(edits) && PlanSpans(content, edits).Ok?
    ensures Planned(ReplacementBase(content, AnyNeedsNormal(content, edits)), PlanSpans(content, edits).value)
  {
    var base := ReplacementBase(content, AnyNeedsNormal(content, edits));
    MatchAllIsPointwise(base, edits);
    var sorted := PlanSpans(content, edits).value;
    SpansSound(content, edits, sorted);
    NeighbourCheckIsEnough(sorted);
  }

  /** The content after the batch. */
  ghost function NewContent(base: Text, edits: seq<Edit>): Result<Text> {
    var empty := FirstEmpty(edits, 0);
    if edits == [] then Err(NoEdits)
    else if empty < |edits| then Err(EmptyOldText(empty))
    else
      var spans :- PlanSpans(base, edits);
      PlanIsSound(base, edits);
      Finished(base, AnyNeedsNormal(base, edits), spans)
  }

  ghost function Finished(base: Text, normalized: bool, spans: seq<Span>): Result<Text>
    requires Planned(ReplacementBase(base, normalized), spans)
  {
    var replaced :- Replaced(base, normalized, spans);
    if replaced == base then Err(NoChange) else Ok(replaced)
  }

  ghost function Replaced(base: Text, normalized: bool, spans: seq<Span>): Result<Text>
    requires Planned(ReplacementBase(base, normalized), spans)
  {
    var target := ReplacementBase(base, normalized);
    PlannedInText(target, spans);
    if !normalized then Ok(Substitute(target, 0, spans, 0))
    else if |SplitLines(base)| != |SplitLines(target)| then Err(DifferentLineCount)
    else Ok(Render(SplitLines(base), Plan(target, spans)))
  }

  // ----- The order of the batch does not matter -----

  lemma {:induction false} SpansOfConcat(base: Text, a: seq<Edit>, b: seq<Edit>)
    ensures SpansOf(base, a + b) == SpansOf(base, a) + SpansOf(base, b)
  {
    if b == [] {
      assert a + b == a;
    } else {
      SpansOfConcat(base, a, b[..|b| - 1]);
      assert (a + b)[..|a + b| - 1] == a + b[..|b| - 1];
      Assoc(SpansOf(base, a), SpansOf(base, b[..|b| - 1]), [SpanOf(base, b[|b| - 1])]);
    }
  }

  lemma {:induction false} SpansOfMiddle(base: Text, edits: seq<Edit>, k: nat)
    requires k < |edits|
    ensures multiset(SpansOf(base, edits))
         == multiset(SpansOf(base, edits[..k] + edits[k + 1..])) + multiset{SpanOf(base, edits[k])}
  {
    var a, x, b := edits[..k], [edits[k]], edits[k + 1..];
    assert edits == a + x + b;
    SpansOfConcat(base, a + x, b);
    SpansOfConcat(base, a, x);
    SpansOfConcat(base, a, b);
    assert x[..0] == [] && SpansOf(base, x) == [SpanOf(base, edits[k])];
  }

  lemma {:induction false} SpansOfPermutes(base: Text, edits: seq<Edit>, shuffled: seq<Edit>)
    requires multiset(edits) == multiset(shuffled)
    ensures multiset(SpansOf(base, edits)) == multiset(SpansOf(base, shuffled))
  {
    assert |edits| == |multiset(edits)| == |multiset(shuffled)| == |shuffled|;
    if edits != [] {
      var n := |edits| - 1;
      assert edits[n] in multiset(shuffled);
      var k :| 0 <= k < |shuffled| && shuffled[k] == edits[n];
      RemoveAt(edits, n);
      RemoveAt(shuffled, k);
      assert edits[..n] + edits[n + 1..] == edits[..n];
      SpansOfPermutes(base, edits[..n], shuffled[..k] + shuffled[k + 1..]);
      SpansOfMiddle(base, edits, n);
      SpansOfMiddle(base, shuffled, k);
    }
  }

  lemma {:induction false} RemoveAt(edits: seq<Edit>, k: nat)
    requires k < |edits|
    ensures multiset(edits[..k] + edits[k + 1..]) == multiset(edits) - multiset{edits[k]}
  {
    assert edits == edits[..k] + [edits[k]] + edits[k + 1..];
  }

  lemma {:induction false} SameMembers(edits: seq<Edit>, shuffled: seq<Edit>)
    requires multiset(edits) == multiset(shuffled)
    ensures forall e :: e in edits <==> e in shuffled
    ensures edits == [] <==> shuffled == []
  {
    forall e ensures e in edits <==> e in shuffled {
      assert e in edits <==> e in multiset(edits);
      assert e in shuffled <==> e in multiset(shuffled);
    }
    assert |multiset(edits)| == |edits| && |multiset(shuffled)| == |shuffled|;
  }

  lemma {:induction false} FirstEmptyMembers(edits: seq<Edit>)
    ensures FirstEmpty(edits, 0) == |edits| <==> NoEmptyOldText(edits)
  {
    var k := FirstEmpty(edits, 0);
    if k < |edits| {
      assert edits[k] in edits;
    }
  }

  lemma {:induction false} PlanPermutes(base: Text, edits: seq<Edit>, shuffled: seq<Edit>)
    requires multiset(edits) == multiset(shuffled) && NoEmptyOldText(edits)
    ensures AnyNeedsNormal(base, edits) == AnyNeedsNormal(base, shuffled)
    ensures PlanSpans(base, edits).Ok? <==> PlanSpans(base, shuffled).Ok?
    ensures PlanSpans(base, edits).Ok? ==> PlanSpans(base, edits) == PlanSpans(base, shuffled)
  {
    SameMembers(edits, shuffled);
    var target := ReplacementBase(base, AnyNeedsNormal(base, edits));
    MatchAllIsPointwise(target, edits);
    MatchAllIsPointwise(target, shuffled);
    if MatchAll(target, edits).Ok? {
      SpansOfPermutes(target, edits, shuffled);
      SpansSound(base, edits, SpansOf(target, edits));
      PlanIgnoresOrder(SpansOf(target, edits), SpansOf(target, shuffled));
    }
  }

  lemma {:induction false} NewContentForm(base: Text, edits: seq<Edit>)
    requires edits != [] && NoEmptyOldText(edits)
    ensures PlanSpans(base, edits).Err? ==> NewContent(base, edits) == Err(PlanSpans(base, edits).error)
    ensures PlanSpans(base, edits).Ok? ==>
      && Planned(ReplacementBase(base, AnyNeedsNormal(base, edits)), PlanSpans(base, edits).value)
      && NewContent(base, edits) == Finished(base, AnyNeedsNormal(base, edits), PlanSpans(base, edits).value)
  {
    FirstEmptyMembers(edits);
    if PlanSpans(base, edits).Ok? {
      PlanIsSound(base, edits);
    }
  }

  lemma {:induction false} PlanErrors(base: Text, edits: seq<Edit>)
    requires PlanSpans(base, edits).Err?
    ensures PlanSpans(base, edits).error != DifferentLineCount
  {
    MatchErrors(ReplacementBase(base, AnyNeedsNormal(base, edits)), edits);
  }

  lemma {:induction false} MatchErrors(base: Text, edits: seq<Edit>)
    ensures MatchAll(base, edits).Err? ==> MatchAll(base, edits).error != DifferentLineCount
  {
    if edits != [] {
      MatchErrors(base, edits[..|edits| - 1]);
    }
  }

  lemma {:induction false} FinishedRefusal(base: Text, normalized: bool, spans: seq<Span>)
    requires Planned(ReplacementBase(base, normalized), spans)
    ensures Finished(base, normalized, spans) == Err(DifferentLineCount) <==> normalized && BlankTail(base)
  {
    NormalizeLineCount(base);
  }

  /** The batch has a plan, some edit of it matches only after normalization, and the content ends in
      a blank line without a newline. */
  ghost predicate RefusedOnContent(base: Text, edits: seq<Edit>) {
    edits != [] && NoEmptyOldText(edits) && PlanSpans(base, edits).Ok? && AnyNeedsNormal(base, edits) && BlankTail(base)
  }

  /** Over every content and batch: the new content is refused with "different line count" exactly so. */
  lemma {:induction false} LineCountRefusal(base: Text, edits: seq<Edit>)
    ensures NewContent(base, edits) == Err(DifferentLineCount) <==> RefusedOnContent(base, edits)
  {
    FirstEmptyMembers(edits);
    if edits != [] && NoEmptyOldText(edits) {
      NewContentForm(base, edits);
      if PlanSpans(base, edits).Ok? {
        FinishedRefusal(base, AnyNeedsNormal(base, edits), PlanSpans(base, edits).value);
      } else {
        PlanErrors(base, edits);
      }
    }
  }

  /** A line in typographic quotes, then a blank line without a newline. */
  const BLANK_ENDED: Text := "a\U{201d}\n "
  const PLAIN_QUOTE := Edit("a\"", "b")

  lemma {:induction false} BlankEndedNormal()
    ensures NormalizeForMatch(BLANK_ENDED) == "a\"\n" && NormalizeForMatch("a\"") == "a\""
    ensures BlankTail(BLANK_ENDED)
  {
    var mapped: Text := "a\"\n ";
    assert MapText(BLANK_ENDED) == mapped && MapText("a\"") == "a\"";
    TrimLinesIsPass(mapped);
    TrimLinesIsPass("a\"");
    assert mapped[3..] == " " && " "[1..] == [] && Trimmed(" ") == [];
    assert mapped[2..] == "\n " && "\n "[1..] == " " && Trimmed("\n ") == "\n";
    assert mapped[1..] == "\"\n " && "\"\n "[1..] == "\n " && Trimmed("\"\n ") == "\"\n";
    assert "a\""[1..] == "\"" && "\""[1..] == [] && Trimmed("\"") == "\"";
    assert Tail(BLANK_ENDED) == " " by {
      assert BLANK_ENDED[..3] == "a\U{201d}\n" && TailStart(BLANK_ENDED) == 3;
    }
  }

  lemma {:induction false} QuoteMatches()
    ensures NeedsNormal(BLANK_ENDED, PLAIN_QUOTE) && Accepted("a\"\n", "a\"")
  {
    BlankEndedNormal();
    var pattern: Text := "a\"";
    var normal: Text := "a\"\n";
    assert !At(BLANK_ENDED, pattern, 0) && !At(BLANK_ENDED, pattern, 1) && !At(BLANK_ENDED, pattern, 2);
    assert At(normal, pattern, 0);
    NormalizeIdempotent(BLANK_ENDED);
    CountIsExact(normal, pattern);
    assert !TwoDisjoint(normal, pattern);
  }

  /** A batch of one accepted edit has a plan. */
  lemma {:induction false} OneEditHasPlan(base: Text, edit: Edit)
    requires Accepted(ReplacementBase(base, NeedsNormal(base, edit)), edit.oldText)
    ensures AnyNeedsNormal(base, [edit]) == NeedsNormal(base, edit) && PlanSpans(base, [edit]).Ok?
  {
    var edits := [edit];
    assert edit in edits && forall e :: e in edits ==> e == edit;
    var target := ReplacementBase(base, NeedsNormal(base, edit));
    MatchAllIsPointwise(target, edits);
    OneSpanIsApart(SpansOf(target, edits));
  }

  lemma {:induction false} OneSpanIsApart(spans: seq<Span>)
    requires |spans| == 1
    ensures !NeighboursOverlap(SortByStart(spans))
  {
    assert |SortByStart(spans)| == |multiset(SortByStart(spans))| == |multiset(spans)| == 1;
  }

  /** A run that reaches the refusal. */
  lemma {:induction false} BlankEndedIsRefused()
    ensures NewContent(BLANK_ENDED, [PLAIN_QUOTE]) == Err(DifferentLineCount)
  {
    BlankEndedNormal();
    QuoteMatches();
    OneEditHasPlan(BLANK_ENDED, PLAIN_QUOTE);
    LineCountRefusal(BLANK_ENDED, [PLAIN_QUOTE]);
  }

  /** A batch is one simultaneous substitution: any order of its edits succeeds or fails alike and
      gives the same content. */
  lemma {:induction false} OrderDoesNotMatter(base: Text, edits: seq<Edit>, shuffled: seq<Edit>)
    requires multiset(edits) == multiset(shuffled)
    ensures NewContent(base, edits).Ok? <==> NewContent(base, shuffled).Ok?
    ensures NewContent(base, edits).Ok? ==> NewContent(base, edits) == NewContent(base, shuffled)
  {
    SameMembers(edits, shuffled);
    FirstEmptyMembers(edits);
    FirstEmptyMembers(shuffled);
    if edits != [] && NoEmptyOldText(edits) {
      NewContentForm(base, edits);
      NewContentForm(base, shuffled);
      PlanPermutes(base, edits, shuffled);
    }
  }

  // ----- What an accepted batch guarantees -----

  lemma {:induction false} PlanIsPermutation(base: Text, edits: seq<Edit>)
    requires PlanSpans(base, edits).Ok?
    ensures var target := ReplacementBase(base, AnyNeedsNormal(base, edits));
      AllAccepted(target, edits) && multiset(PlanSpans(base, edits).value) == multiset(SpansOf(target, edits))
  {
    MatchAllIsPointwise(ReplacementBase(base, AnyNeedsNormal(base, edits)), edits);
  }

  lemma {:induction false} SuccessHasPlan(base: Text, edits: seq<Edit>)
    requires NewContent(base, edits).Ok?
    ensures edits != [] && NoEmptyOldText(edits) && PlanSpans(base, edits).Ok?
  {
    FirstEmptyMembers(edits);
  }

  lemma {:induction false} SpanIsPlanned(base: Text, edits: seq<Edit>, edit: Edit, plan: seq<Span>)
    requires edit in edits && multiset(plan) == multiset(SpansOf(base, edits))
    ensures SpanOf(base, edit) in plan
  {
    var k :| 0 <= k < |edits| && edits[k] == edit;
    SpansOfAt(base, edits, k);
    assert SpansOf(base, edits)[k] in multiset(plan);
  }

  /** Every edit of a successful batch reads its old text, or the normal form of it, at a place of its
      own. Unless it is blank, it has no second disjoint occurrence in the content, and its normal
      form none in the normal form of the content. */
  lemma {:induction false} AcceptedBatch(content: Text, edits: seq<Edit>, edit: Edit)
    requires NewContent(content, edits).Ok? && edit in edits
    ensures var base := ReplacementBase(content, AnyNeedsNormal(content, edits));
      var span := SpanOf(base, edit);
      && PlanSpans(content, edits).Ok? && span in PlanSpans(content, edits).value
      && span.length > 0 && span.End() <= |base| && span.text == edit.newText
      && (base[span.start..span.End()] == edit.oldText || base[span.start..span.End()] == NormalizeForMatch(edit.oldText))
      && (NormalizeForMatch(edit.oldText) != [] ==>
            && !TwoDisjoint(content, edit.oldText)
            && !TwoDisjoint(NormalizeForMatch(content), NormalizeForMatch(edit.oldText)))
  {
    SuccessHasPlan(content, edits);
    PlanIsPermutation(content, edits);
    var normalized := AnyNeedsNormal(content, edits);
    var base := ReplacementBase(content, normalized);
    SpanIsPlanned(base, edits, edit, PlanSpans(content, edits).value);
    assert NeedsNormal(content, edit) ==> normalized;
    SpanSound(content, edit, normalized);
    if NormalizeForMatch(edit.oldText) != [] {
      NormalizeIdempotent(content);
      CountedOnceIsUnique(content, edit.oldText);
    }
  }

  // ----- What a batch leaves, and when it is refused -----

  /** The value is the content with the whole batch applied: every edit at its own span, all of them
      on the replacement base, and the lines none of them touches as they were in the content. */
  ghost predicate Applied(base: Text, edits: seq<Edit>, value: Text) {
    exists plan :: AppliedBy(base, edits, value, plan)
  }

  ghost predicate AppliedBy(base: Text, edits: seq<Edit>, value: Text, plan: seq<Span>) {
    var normalized := AnyNeedsNormal(base, edits);
    && multiset(plan) == multiset(SpansOf(ReplacementBase(base, normalized), edits)) && PairwiseDisjoint(plan)
    && Leaves(base, normalized, plan, value)
  }

  ghost predicate Leaves(base: Text, normalized: bool, plan: seq<Span>, value: Text) {
    if normalized then ReplacesKeepingLines(SplitLines(base), SplitLines(NormalizeForMatch(base)), plan, value)
    else ReplacesAll(base, plan, value)
  }

  lemma {:induction false} ReplacedApplies(base: Text, normalized: bool, plan: seq<Span>)
    requires Planned(ReplacementBase(base, normalized), plan) && Replaced(base, normalized, plan).Ok?
    ensures Leaves(base, normalized, plan, Replaced(base, normalized, plan).value)
  {
    PlannedInText(ReplacementBase(base, normalized), plan);
    if normalized {
      RenderKeepsLines(SplitLines(base), NormalizeForMatch(base), plan);
    } else {
      SubstituteReplacesAll(base, plan);
    }
  }

  /** A batch that succeeds leaves the content with every edit applied, and not as it was; one refused
      for changing nothing would have left it as it was. */
  lemma {:induction false} NewContentApplies(base: Text, edits: seq<Edit>)
    ensures var r := NewContent(base, edits);
      && (r.Ok? ==> Applied(base, edits, r.value) && r.value != base)
      && (r == Err(NoChange) ==> Applied(base, edits, base))
  {
    var r := NewContent(base, edits);
    FirstEmptyMembers(edits);
    if edits != [] && NoEmptyOldText(edits) {
      NewContentForm(base, edits);
      if PlanSpans(base, edits).Ok? {
        PlanApplies(base, edits, PlanSpans(base, edits).value);
      } else {
        PlanErrorKinds(base, edits);
      }
    }
  }

  lemma {:induction false} PlanApplies(base: Text, edits: seq<Edit>, plan: seq<Span>)
    requires NoEmptyOldText(edits) && PlanSpans(base, edits) == Ok(plan)
    requires Planned(ReplacementBase(base, AnyNeedsNormal(base, edits)), plan)
    ensures var r := Finished(base, AnyNeedsNormal(base, edits), plan);
      && (r.Ok? ==> Applied(base, edits, r.value) && r.value != base)
      && (r == Err(NoChange) ==> Applied(base, edits, base))
  {
    var normalized := AnyNeedsNormal(base, edits);
    PlanIsPermutation(base, edits);
    PlannedInText(ReplacementBase(base, normalized), plan);
    FinishedApplies(base, normalized, plan);
    var r := Finished(base, normalized, plan);
    if r.Ok? {
      assert AppliedBy(base, edits, r.value, plan);
    } else if r == Err(NoChange) {
      assert AppliedBy(base, edits, base, plan);
    }
  }

  lemma {:induction false} FinishedApplies(base: Text, normalized: bool, plan: seq<Span>)
    requires Planned(ReplacementBase(base, normalized), plan)
    ensures var r := Finished(base, normalized, plan);
      && (r.Ok? ==> Leaves(base, normalized, plan, r.value) && r.value != base)
      && (r == Err(NoChange) ==> Leaves(base, normalized, plan, base))
  {
    if Replaced(base, normalized, plan).Ok? {
      ReplacedApplies(base, normalized, plan);
    }
  }

  /** The matching stops at the first edit that is not accepted, and says whether its old text is
      missing or how often it is counted. */
  lemma {:induction false} FirstRefusal(base: Text, edits: seq<Edit>) returns (k: nat)
    requires MatchAll(base, edits).Err?
    ensures k < |edits| && !Accepted(base, edits[k].oldText)
    ensures forall j :: 0 <= j < k ==> Accepted(base, edits[j].oldText)
    ensures MatchAll(base, edits).error == (if FindText(base, edits[k].oldText).Missing? then OldTextNotFound(k)
                                            else OldTextNotUnique(k, CountOccurrences(base, edits[k].oldText)))
  {
    var init, last := edits[..|edits| - 1], edits[|edits| - 1];
    if MatchAll(base, init).Err? {
      k := FirstRefusal(base, init);
    } else {
      k := |init|;
      MatchOneIsAccepted(base, last, |init|);
      MatchAllIsPointwise(base, init);
      forall j | 0 <= j < k ensures Accepted(base, edits[j].oldText) {
        assert init[j] in init;
      }
    }
  }

  lemma {:induction false} PlanOverlap(base: Text, edits: seq<Edit>)
    requires NoEmptyOldText(edits)
    ensures var target := ReplacementBase(base, AnyNeedsNormal(base, edits));
      && (PlanSpans(base, edits).Ok? <==> AllAccepted(target, edits) && Apart(SpansOf(target, edits)))
      && (PlanSpans(base, edits) == Err(EditsOverlap) <==> AllAccepted(target, edits) && !Apart(SpansOf(target, edits)))
  {
    var target := ReplacementBase(base, AnyNeedsNormal(base, edits));
    MatchAllIsPointwise(target, edits);
    if MatchAll(target, edits).Ok? {
      SpansSound(base, edits, SpansOf(target, edits));
      OverlapIsExact(SpansOf(target, edits));
    } else {
      var k := FirstRefusal(target, edits);
    }
  }

  /** Exactly when a batch succeeds, and exactly when it is refused as a whole. */
  lemma {:induction false} NewContentExactly(base: Text, edits: seq<Edit>)
    ensures var r, target := NewContent(base, edits), ReplacementBase(base, AnyNeedsNormal(base, edits));
      var fit := edits != [] && NoEmptyOldText(edits) && AllAccepted(target, edits);
      && (r == Err(NoEdits) <==> edits == [])
      && (r == Err(EditsOverlap) <==> fit && !Apart(SpansOf(target, edits)))
      && (r.Ok? || r == Err(NoChange) <==>
            fit && Apart(SpansOf(target, edits)) && !(AnyNeedsNormal(base, edits) && BlankTail(base)))
  {
    FirstEmptyMembers(edits);
    if edits != [] && NoEmptyOldText(edits) {
      NewContentForm(base, edits);
      PlanOverlap(base, edits);
      if PlanSpans(base, edits).Ok? {
        FinishedExactly(base, AnyNeedsNormal(base, edits), PlanSpans(base, edits).value);
      } else {
        PlanErrorKinds(base, edits);
      }
    }
  }

  lemma {:induction false} FinishedExactly(base: Text, normalized: bool, spans: seq<Span>)
    requires Planned(ReplacementBase(base, normalized), spans)
    ensures var r := Finished(base, normalized, spans);
      && (r.Ok? || r == Err(NoChange) <==> !(normalized && BlankTail(base)))
      && (r.Err? ==> r.error == NoChange || r.error == DifferentLineCount)
  {
    NormalizeLineCount(base);
  }

  lemma {:induction false} PlanErrorKinds(base: Text, edits: seq<Edit>)
    requires PlanSpans(base, edits).Err?
    ensures var e := PlanSpans(base, edits).error; e == EditsOverlap || e.OldTextNotFound? || e.OldTextNotUnique?
  {
    var target := ReplacementBase(base, AnyNeedsNormal(base, edits));
    if MatchAll(target, edits).Err? {
      var k := FirstRefusal(target, edits);
    }
  }

  // ----- The run -----

  function LfEdits(edits: seq<Edit>): (r: seq<Edit>)
    ensures |r| == |edits| && forall i :: 0 <= i < |edits| ==> r[i] == Edit(ToLf(edits[i].oldText), ToLf(edits[i].newText))
  {
    seq(|edits|, i requires 0 <= i < |edits| => Edit(ToLf(edits[i].oldText), ToLf(edits[i].newText)))
  }

  method MatchEdits(base: Text, edits: seq<Edit>) returns (r: Result<seq<Span>>)
    ensures r == MatchAll(base, edits)
  {
    var spans: seq<Span> := [];
    for k := 0 to |edits|
      invariant MatchAll(base, edits[..k]) == Ok(spans)
    {
      assert edits[..k + 1][..k] == edits[..k];
      var one := MatchOne(base, edits[k], k);
      if one.Err? {
        MatchFails(base, edits, k + 1);
        return Err(one.error);
      }
      spans := spans + [one.value];
    }
    assert edits[..|edits|] == edits;
    return Ok(spans);
  }

  lemma {:induction false} MatchFails(base: Text, edits: seq<Edit>, k: nat)
    requires k <= |edits| && MatchAll(base, edits[..k]).Err?
    ensures MatchAll(base, edits) == MatchAll(base, edits[..k])
    decreases |edits| - k
  {
    if k == |edits| {
      assert edits[..k] == edits;
    } else {
      assert edits[..k + 1][..k] == edits[..k];
      MatchFails(base, edits, k + 1);
    }
  }

  method HasOverlap(sorted: seq<Span>) returns (overlap: bool)
    ensures overlap == NeighboursOverlap(sorted)
  {
    var i := 0;
    while i < |sorted| - 1
      invariant 0 <= i && forall k :: 0 <= k < i && k < |sorted| - 1 ==> sorted[k].End() <= sorted[k + 1].start
    {
      if sorted[i].End() > sorted[i + 1].start {
        return true;
      }
      i := i + 1;
    }
    return false;
  }

  /** The content an edit run writes, as the tool computes it. */
  method EditContent(original: Text, edits: seq<Edit>) returns (r: Result<Text>)
    ensures r == NewContent(ToLf(original), LfEdits(edits))
    ensures r.Ok? ==> Applied(ToLf(original), LfEdits(edits), r.value) && r.value != ToLf(original)
  {
    NewContentApplies(ToLf(original), LfEdits(edits));
    if edits == [] {
      return Err(NoEdits);
    }
    var plain := LfEdits(edits);
    var base := ToLf(original);
    var empty := FirstEmpty(plain, 0);
    if empty < |plain| {
      return Err(EmptyOldText(empty));
    }
    FirstEmptyMembers(plain);
    NewContentForm(base, plain);
    var normalized := AnyNeedsNormal(base, plain);
    var target := ReplacementBase(base, normalized);
    var matched := MatchEdits(target, plain);
    if matched.Err? {
      return Err(matched.error);
    }
    var sorted := SortByStart(matched.value);
    var overlap := HasOverlap(sorted);
    if overlap {
      return Err(EditsOverlap);
    }
    PlannedInText(target, sorted);
    var replaced;
    if normalized {
      replaced := ApplyPreservingLines(base, target, sorted);
      if replaced.Err? {
        return Err(replaced.error);
      }
    } else {
      var text := ApplyReplacements(target, sorted, 0);
      replaced := Ok(text);
    }
    return if replaced.value == base then Err(NoChange) else replaced;
  }

  // ----- The new content has newlines only -----

  lemma {:induction false} NoCrConcat(a: Text, b: Text)
    ensures NoCr(a + b) <==> NoCr(a) && NoCr(b)
  {
    if NoCr(a + b) {
      forall i | 0 <= i < |a| ensures a[i] != '\r' { assert (a + b)[i] == a[i]; }
      forall i | 0 <= i < |b| ensures b[i] != '\r' { assert (a + b)[|a| + i] == b[i]; }
    }
  }

  lemma {:induction false} SubstituteNoCr(s: Text, offset: nat, spans: seq<Span>, from: nat)
    requires offset <= from && Ordered(spans, from, offset + |s|) && NoCr(s)
    requires forall i :: 0 <= i < |spans| ==> NoCr(spans[i].text)
    ensures NoCr(Substitute(s, offset, spans, from))
    decreases |spans|
  {
    OrderedBounds(spans, from, offset + |s|);
    if spans != [] {
      SubstituteNoCr(s, offset, spans[1..], spans[0].End());
      var gap := s[from - offset..spans[0].start - offset];
      NoCrConcat(gap, spans[0].text);
      NoCrConcat(gap + spans[0].text, Substitute(s, offset, spans[1..], spans[0].End()));
    }
  }

  lemma {:induction false} TrimmedNoCr(s: Text)
    requires NoCr(s)
    ensures NoCr(Trimmed(s))
  {
    if s != [] {
      TrimmedNoCr(s[1..]);
    }
  }

  lemma {:induction false} NormalizeNoCr(s: Text)
    requires NoCr(s)
    ensures NoCr(NormalizeForMatch(s))
  {
    TrimLinesIsPass(MapText(s));
    TrimmedNoCr(MapText(s));
  }

  lemma {:induction false} RenderNoCr(keep: seq<Text>, blocks: seq<Block>)
    requires BlocksWithin(blocks, |keep|) && LinesNoCr(keep)
    requires forall k :: 0 <= k < |blocks| && blocks[k].Fresh? ==> NoCr(blocks[k].text)
    ensures NoCr(Render(keep, blocks))
  {
    if blocks != [] {
      RenderNoCr(keep, blocks[1..]);
      NoCrConcat(if blocks[0].Kept? then keep[blocks[0].line] else blocks[0].text, Render(keep, blocks[1..]));
    }
  }

  ghost predicate SpansNoCr(spans: seq<Span>) {
    forall i :: 0 <= i < |spans| ==> NoCr(spans[i].text)
  }

  lemma {:induction false} BlocksNoCr(lines: seq<Text>, groups: seq<Group>, at: nat)
    requires GroupsOk(lines, groups) && at <= |lines| && (groups != [] ==> at <= groups[0].startLine)
    requires NoCr(Concat(lines)) && SpansNoCr(AllSpans(groups))
    ensures forall k :: 0 <= k < |Blocks(lines, groups, at)| && Blocks(lines, groups, at)[k].Fresh? ==>
              NoCr(Blocks(lines, groups, at)[k].text)
    decreases |groups|
  {
    if groups != [] {
      var g, rest := groups[0], groups[1..];
      assert GroupOk(lines, g);
      var spans := AllSpans(groups);
      assert spans == g.spans + AllSpans(rest);
      assert SpansNoCr(AllSpans(rest)) by {
        forall i | 0 <= i < |AllSpans(rest)| ensures NoCr(AllSpans(rest)[i].text) {
          assert spans[|g.spans| + i] == AllSpans(rest)[i];
        }
      }
      assert SpansNoCr(g.spans) by {
        forall i | 0 <= i < |g.spans| ensures NoCr(g.spans[i].text) { assert spans[i] == g.spans[i]; }
      }
      BlocksNoCr(lines, rest, g.endLine);
      OffsetsCut(lines, g.startLine, g.endLine);
      var a, b := Offset(lines, g.startLine), Offset(lines, g.endLine);
      SubstituteNoCr(Concat(lines)[a..b], a, g.spans, a);
    }
  }

  lemma {:induction false} ReplacedNoCr(base: Text, normalized: bool, spans: seq<Span>)
    requires Planned(ReplacementBase(base, normalized), spans) && NoCr(base) && SpansNoCr(spans)
    requires Replaced(base, normalized, spans).Ok?
    ensures NoCr(Replaced(base, normalized, spans).value)
  {
    var target := ReplacementBase(base, normalized);
    PlannedInText(target, spans);
    if normalized {
      NormalizeNoCr(base);
      SplitNoCr(base);
      var lines := SplitLines(target);
      ConcatSplit(target);
      GroupAllOk(lines, spans);
      BlocksNoCr(lines, GroupAll(lines, spans), 0);
      RenderNoCr(SplitLines(base), Plan(target, spans));
    } else {
      SubstituteNoCr(target, 0, spans, 0);
    }
  }

  lemma {:induction false} PlanNoCr(base: Text, edits: seq<Edit>)
    requires PlanSpans(base, edits).Ok? && forall e :: e in edits ==> NoCr(e.newText)
    ensures SpansNoCr(PlanSpans(base, edits).value)
  {
    var target := ReplacementBase(base, AnyNeedsNormal(base, edits));
    PlanIsPermutation(base, edits);
    var spans, all := PlanSpans(base, edits).value, SpansOf(target, edits);
    forall i | 0 <= i < |spans| ensures NoCr(spans[i].text) {
      assert spans[i] in multiset(all);
      var k :| 0 <= k < |all| && all[k] == spans[i];
      SpansOfAt(target, edits, k);
      assert edits[k] in edits;
    }
  }

  /** End to end: whatever diff the write-back uses, a successful edit of a spliceable file is
      written, and the written file reads, line endings aside, as exactly the new content. */
  lemma {:induction false} EditEndToEnd(original: Text, edits: seq<Edit>, script: seq<Change>)
    requires NewContent(ToLf(original), LfEdits(edits)).Ok? && Spliceable(original)
    requires IsDiff(script, ToLf(original), NewContent(ToLf(original), LfEdits(edits)).value)
    ensures Splices(original, NewContent(ToLf(original), LfEdits(edits)).value, script)
  {
    var base, plain := ToLf(original), LfEdits(edits);
    NewContentNoCr(original, edits);
    SpliceIsCorrect(original, NewContent(base, plain).value, script);
  }

  // ----- The whole run: content, then splice -----

  /** What a run writes over the file, given how it finds the diff of the old and the new content. */
  ghost function WholeRun(original: Text, edits: seq<Edit>, diff: (Text, Text) -> seq<Change>): Result<Text> {
    Spliced(original, NewContent(ToLf(original), LfEdits(edits)), diff)
  }

  function Spliced(original: Text, found: Result<Text>, diff: (Text, Text) -> seq<Change>): Result<Text> {
    var content :- found;
    SpliceLines(SplitLines(original), diff(ToLf(original), content), DetectLineEnding(original))
  }

  method EditFile(original: Text, edits: seq<Edit>, diff: (Text, Text) -> seq<Change>) returns (r: Result<Text>)
    ensures r == WholeRun(original, edits, diff)
    ensures r.Ok? && ValidDiff(diff) ==>
              && (HasNewline(original) && AllPairs(original) ==> AllPairs(r.value))
              && (NoCr(original) ==> NoCr(r.value))
  {
    var content := EditContent(original, edits);
    if content.Err? {
      return Err(content.error);
    }
    r := SpliceUnchangedLines(original, diff(ToLf(original), content.value), DetectLineEnding(original));
    if r.Ok? && ValidDiff(diff) {
      NewContentNoCr(original, edits);
      DiffInsertsNoCr(diff(ToLf(original), content.value), ToLf(original), content.value);
      WrittenEndings(original, diff(ToLf(original), content.value));
    }
  }

  ghost predicate ValidDiff(diff: (Text, Text) -> seq<Change>) {
    forall a, b :: IsDiff(diff(a, b), a, b)
  }

  lemma {:induction false} DiffInsertsNoCr(script: seq<Change>, before: Text, after: Text)
    requires IsDiff(script, before, after) && NoCr(after)
    ensures InsertsNoCr(script)
  {
    SplitNoCr(after);
    forall k | 0 <= k < |script| && script[k].Insert? ensures NoCr(script[k].line) {
      InNewSide(script, k);
    }
  }

  lemma {:induction false} InNewSide(script: seq<Change>, k: nat)
    requires k < |script| && !script[k].Delete?
    ensures script[k].line in NewSide(script)
    decreases |script|
  {
    if k < |script| - 1 {
      InNewSide(script[..|script| - 1], k);
    }
  }

  /** Change `k` keeps a line, and the original has none left for it. */
  predicate RunsOut(original: seq<Text>, script: seq<Change>, k: nat) {
    k < |script| && script[k].Equal? && |OldSide(script[..k])| >= |original|
  }

  ghost predicate LinesRunOut(original: seq<Text>, script: seq<Change>) {
    exists k :: RunsOut(original, script, k)
  }

  /** The splice fails exactly when some kept line has no original line left, and then says so. */
  lemma {:induction false} SpliceRefusal(original: seq<Text>, script: seq<Change>, ending: LineEnding)
    ensures var r := SpliceLines(original, script, ending);
      && (r.Err? <==> LinesRunOut(original, script))
      && (r.Err? ==> r.error == DifferentLineCount)
  {
    if script != [] {
      var init, n := script[..|script| - 1], |script| - 1;
      SpliceRefusal(original, init, ending);
      assert script[..n] == init;
      assert forall k :: 0 <= k < n ==> script[..k] == init[..k] && script[k] == init[k];
      assert forall k :: 0 <= k < n ==> (RunsOut(original, script, k) <==> RunsOut(original, init, k));
      assert script[n].Equal? && |OldSide(init)| >= |original| ==> RunsOut(original, script, n);
    }
  }

  /** Over every file, batch and diff: the whole run is refused with "different line count" if and
      only if it is refused on the content, or the content is found and some line the diff keeps has
      no line of the original left. */
  lemma {:induction false} WholeRunRefusal(original: Text, edits: seq<Edit>, diff: (Text, Text) -> seq<Change>)
    ensures var base, plain := ToLf(original), LfEdits(edits);
      WholeRun(original, edits, diff) == Err(DifferentLineCount) <==>
        || RefusedOnContent(base, plain)
        || (NewContent(base, plain).Ok?
            && LinesRunOut(SplitLines(original), diff(base, NewContent(base, plain).value)))
  {
    var base, plain := ToLf(original), LfEdits(edits);
    LineCountRefusal(base, plain);
    SplicedRefusal(original, NewContent(base, plain), diff);
  }

  lemma {:induction false} SplicedRefusal(original: Text, found: Result<Text>, diff: (Text, Text) -> seq<Change>)
    ensures Spliced(original, found, diff) == Err(DifferentLineCount) <==>
              || found == Err(DifferentLineCount)
              || (found.Ok? && LinesRunOut(SplitLines(original), diff(ToLf(original), found.value)))
  {
    if found.Ok? {
      var script := diff(ToLf(original), found.value);
      SpliceRefusal(SplitLines(original), script, DetectLineEnding(original));
      assert Spliced(original, found, diff) == SpliceLines(SplitLines(original), script, DetectLineEnding(original));
    }
  }

  lemma {:induction false} NewContentNoCr(original: Text, edits: seq<Edit>)
    requires NewContent(ToLf(original), LfEdits(edits)).Ok?
    ensures NoCr(NewContent(ToLf(original), LfEdits(edits)).value)
  {
    var base, plain := ToLf(original), LfEdits(edits);
    SuccessHasPlan(base, plain);
    NewContentForm(base, plain);
    ToLfHasNoCr(original);
    forall e | e in plain ensures NoCr(e.newText) {
      var k :| 0 <= k < |plain| && plain[k] == e;
      ToLfHasNoCr(edits[k].newText);
    }
    PlanNoCr(base, plain);
    ReplacedNoCr(base, AnyNeedsNormal(base, plain), PlanSpans(base, plain).value);
  }

  /** In a file without a lone CR before its end only the content can be refused so: a valid diff
      never runs out of lines. */
  lemma {:induction false} CleanNeverRunsOut(original: Text, edits: seq<Edit>, diff: (Text, Text) -> seq<Change>)
    requires Clean(original) && ValidDiff(diff)
    ensures WholeRun(original, edits, diff) == Err(DifferentLineCount) <==> RefusedOnContent(ToLf(original), LfEdits(edits))
  {
    var base, plain := ToLf(original), LfEdits(edits);
    WholeRunRefusal(original, edits, diff);
    if NewContent(base, plain).Ok? {
      var content := NewContent(base, plain).value;
      NewContentNoCr(original, edits);
      var written := SpliceKeepsLines(original, content, diff(base, content));
      SpliceRefusal(SplitLines(original), diff(base, content), DetectLineEnding(original));
    }
  }

  // ----- A run refused by the splice -----

  /** A plan of one span, on the content as it is: that span is replaced and nothing else. */
  lemma {:induction false} PlainContent(base: Text, edits: seq<Edit>, span: Span, content: Text)
    requires edits != [] && NoEmptyOldText(edits) && !AnyNeedsNormal(base, edits) && PlanSpans(base, edits) == Ok([span])
    requires span.End() <= |base| && content == base[..span.start] + span.text + base[span.End()..] && content != base
    ensures NewContent(base, edits) == Ok(content)
  {
    NewContentForm(base, edits);
    FinishedPlain(base, span);
    assert Finished(base, false, [span]) == Ok(content);
  }

  lemma {:induction false} FinishedPlain(base: Text, span: Span)
    requires Planned(ReplacementBase(base, false), [span])
    ensures span.End() <= |base|
    ensures var content := base[..span.start] + span.text + base[span.End()..];
      Finished(base, false, [span]) == if content == base then Err(NoChange) else Ok(content)
  {
    PlannedInText(base, [span]);
    SubstituteOne(base, span);
  }

  lemma {:induction false} OneExactPlan(base: Text, edit: Edit, span: Span)
    requires FindText(base, edit.oldText) == Found(span.start, span.length, false) && span.text == edit.newText
    requires CountOccurrences(base, edit.oldText) <= 1
    ensures !AnyNeedsNormal(base, [edit]) && PlanSpans(base, [edit]) == Ok([span])
  {
    OneEditHasPlan(base, edit);
    MatchAllIsPointwise(base, [edit]);
    SpansOfAt(base, [edit], 0);
    assert SpansOf(base, [edit]) == [span];
    SortOfOne(span);
  }

  lemma {:induction false} SortOfOne(span: Span)
    ensures SortByStart([span]) == [span]
  {
    var sorted := SortByStart([span]);
    assert |sorted| == |multiset(sorted)| == 1;
    assert sorted[0] in multiset(sorted);
  }

  lemma {:induction false} SubstituteOne(s: Text, span: Span)
    requires Ordered([span], 0, |s|)
    ensures span.End() <= |s| && Substitute(s, 0, [span], 0) == s[..span.start] + span.text + s[span.End()..]
  {
    var gap, rest := AfterFirst(s, [span], 0);
    assert [span][1..] == [];
    Assoc(gap, span.text, rest);
  }

  const LONE_CR: Text := "a\rb"
  const A_TO_X := Edit("a", "x")
  const A_TO_X_SCRIPT := [Delete("a\n"), Insert("x\n"), Equal("b")]

  lemma {:induction false} LoneCrLines()
    ensures ToLf(LONE_CR) == "a\nb" && SplitLines(LONE_CR) == [LONE_CR] && !BlankTail("a\nb")
  {
    assert LONE_CR[1..] == "\rb" && "\rb"[1..] == "b" && "b"[1..] == [];
    assert ToLf("b") == "b" && ToLf("\rb") == "\nb";
    OneLine(LONE_CR);
    assert TailStart("a\nb") == 2 by { assert "a\nb"[..2] == "a\n"; }
    assert Tail("a\nb") == "b";
  }

  lemma {:induction false} TwoLines(first: Text, second: Text)
    requires IsLine(first) && EndsLine(first) && IsLine(second)
    ensures SplitLines(first + second) == [first, second]
  {
    SplitConcat([first, second]);
    ConcatCons(first, [second]);
    ConcatCons(second, []);
    assert [first] + [second] == [first, second] && [second] + [] == [second] && second + [] == second;
  }

  lemma {:induction false} ReplaceFirstLine(gone: Text, put: Text, kept: Text)
    ensures var script := [Delete(gone), Insert(put), Equal(kept)];
      && OldSide(script[..2]) == [gone]
      && OldSide(script) == [gone, kept] && NewSide(script) == [put, kept]
  {
    var d, i, e := Delete(gone), Insert(put), Equal(kept);
    SidesSnoc([], d);
    SidesSnoc([d], i);
    SidesSnoc([d, i], e);
    assert [] + [d] == [d] && [d] + [i] == [d, i] && [d, i] + [e] == [d, i, e] && [d, i, e][..2] == [d, i];
  }

  lemma {:induction false} LoneCrDiff()
    ensures IsDiff(A_TO_X_SCRIPT, "a\nb", "x\nb") && OldSide(A_TO_X_SCRIPT[..2]) == ["a\n"]
  {
    ReplaceFirstLine("a\n", "x\n", "b");
    TwoLines("a\n", "b");
    TwoLines("x\n", "b");
    assert "a\n" + "b" == "a\nb" && "x\n" + "b" == "x\nb";
  }

  lemma {:induction false} LoneCrNormal()
    ensures NormalizeForMatch("a\nb") == "a\nb" && NormalizeForMatch("a") == "a"
  {
    var base: Text := "a\nb";
    TrimLinesIsPass(base);
    TrimLinesIsPass("a");
    assert MapText(base) == base && MapText("a") == "a";
    assert base[1..] == "\nb" && "\nb"[1..] == "b" && "b"[1..] == [] && "a"[1..] == [];
    assert Trimmed("b") == "b" && Trimmed("\nb") == "\nb" && Trimmed("a") == "a";
  }

  lemma {:induction false} LoneCrMatch()
    ensures FindText("a\nb", "a") == Found(0, 1, false) && CountOccurrences("a\nb", "a") <= 1
  {
    var base: Text := "a\nb";
    assert At(base, "a", 0);
    LoneCrNormal();
    CountIsExact(base, "a");
    assert forall i: nat :: At(base, "a", i) ==> base[i..i + 1][0] == 'a';
    assert !TwoDisjoint(base, "a");
  }

  lemma {:induction false} LoneCrContent()
    ensures NewContent("a\nb", [A_TO_X]) == Ok("x\nb")
  {
    var base: Text := "a\nb";
    LoneCrMatch();
    OneExactPlan(base, A_TO_X, Span(0, 1, "x"));
    LoneCrText();
    PlainContent(base, [A_TO_X], Span(0, 1, "x"), "x\nb");
  }

  lemma {:induction false} LoneCrText()
    ensures var base: Text := "a\nb"; base[..0] + "x" + base[1..] == "x\nb" != base
  {
    assert "x\nb"[0] != "a\nb"[0];
  }

  /** The whole run on a file with a lone CR: the content is found, the diff is valid, the file ends
      in no blank line, and the splice reports a different line count all the same. */
  lemma {:induction false} LoneCrIsRefused(diff: (Text, Text) -> seq<Change>)
    requires diff("a\nb", "x\nb") == A_TO_X_SCRIPT
    ensures IsDiff(diff("a\nb", "x\nb"), "a\nb", "x\nb") && !BlankTail(ToLf(LONE_CR))
    ensures WholeRun(LONE_CR, [A_TO_X], diff) == Err(DifferentLineCount)
  {
    LoneCrLines();
    LoneCrDiff();
    LoneCrContent();
    assert ToLf("a") == "a" && ToLf("x") == "x" && LfEdits([A_TO_X]) == [A_TO_X];
    assert RunsOut(SplitLines(LONE_CR), A_TO_X_SCRIPT, 2);
    WholeRunRefusal(LONE_CR, [A_TO_X], diff);
  }
}

/** Planning a batch: spans sorted by position, checked for overlap, applied back to front. */
module BatchEdit {
  import opened Lines

  /** Replace `length` characters at `start` by `text`. */
  datatype Span = Span(start: nat, length: nat, text: Text) {
    function End(): nat { start + length }
  }

  // ----- Sorting -----

  predicate Sorted(spans: seq<Span>) {
    forall i, j :: 0 <= i < j < |spans| ==> spans[i].start <= spans[j].start
  }

  predicate StrictlySorted(spans: seq<Span>) {
    forall i, j :: 0 <= i < j < |spans| ==> spans[i].start < spans[j].start
  }

  /** Insert behind every span that starts no later, so equal keys keep their order. */
  function Insert(x: Span, spans: seq<Span>): (r: seq<Span>)
    requires Sorted(spans)
    ensures Sorted(r) && multiset(r) == multiset(spans) + multiset{x}
  {
    if spans == [] then [x] else
    var init, last := spans[..|spans| - 1], spans[|spans| - 1];
    if last.start <= x.start then spans + [x]
    else
      assert spans == init + [last];
      var r := Insert(x, init);
      BoundKept(x, init, r, last);
      SortedSnoc(r, last);
      r + [last]
  }

  lemma {:induction false} SortedSnoc(spans: seq<Span>, last: Span)
    requires Sorted(spans) && forall i :: 0 <= i < |spans| ==> spans[i].start <= last.start
    ensures Sorted(spans + [last])
  {
  }

  lemma {:induction false} BoundKept(x: Span, spans: seq<Span>, r: seq<Span>, last: Span)
    requires multiset(r) == multiset(spans) + multiset{x} && x.start <= last.start
    requires forall i :: 0 <= i < |spans| ==> spans[i].start <= last.start
    ensures forall i :: 0 <= i < |r| ==> r[i].start <= last.start
  {
    forall i | 0 <= i < |r| ensures r[i].start <= last.start {
      assert r[i] in multiset(r);
      assert r[i] in multiset(spans) ==> r[i] in spans;
    }
  }

  function SortByStart(spans: seq<Span>): (r: seq<Span>)
    ensures Sorted(r) && multiset(r) == multiset(spans)
  {
    if spans == [] then [] else
      assert spans == spans[..|spans| - 1] + [spans[|spans| - 1]];
      Insert(spans[|spans| - 1], SortByStart(spans[..|spans| - 1]))
  }

  lemma {:induction false} FirstAgrees(p: seq<Span>, q: seq<Span>)
    requires StrictlySorted(p) && Sorted(q) && p != [] && q != [] && multiset(p) == multiset(q)
    ensures p[0] == q[0]
  {
    assert p[0] in multiset(q) && q[0] in multiset(p);
    var i :| 0 <= i < |q| && q[i] == p[0];
    var j :| 0 <= j < |p| && p[j] == q[0];
  }

  lemma {:induction false} MultisetTail(p: seq<Span>)
    requires p != []
    ensures multiset(p[1..]) == multiset(p) - multiset{p[0]}
  {
    assert p == [p[0]] + p[1..];
  }

  /** With distinct starts there is only one sorted order. */
  lemma {:induction false} SortedOrderUnique(p: seq<Span>, q: seq<Span>)
    requires StrictlySorted(p) && Sorted(q) && multiset(p) == multiset(q)
    ensures p == q
  {
    assert |p| == |multiset(p)| == |multiset(q)| == |q|;
    if p != [] {
      FirstAgrees(p, q);
      MultisetTail(p);
      MultisetTail(q);
      SortedOrderUnique(p[1..], q[1..]);
      assert p == [p[0]] + p[1..] && q == [q[0]] + q[1..];
    }
  }

  // ----- Overlap -----

  /** The check over neighbouring pairs. */
  predicate NeighboursOverlap(spans: seq<Span>) {
    exists i :: 0 <= i < |spans| - 1 && spans[i].End() > spans[i + 1].start
  }

  ghost predicate PairwiseDisjoint(spans: seq<Span>) {
    forall i, j :: 0 <= i < j < |spans| ==> spans[i].End() <= spans[j].start
  }

  predicate NonEmpty(spans: seq<Span>) {
    forall i :: 0 <= i < |spans| ==> spans[i].length > 0
  }

  /** On sorted, non-empty spans the neighbour check decides disjointness of every pair. */
  lemma {:induction false} NeighbourCheckIsEnough(spans: seq<Span>)
    requires Sorted(spans) && NonEmpty(spans)
    ensures !NeighboursOverlap(spans) <==> PairwiseDisjoint(spans)
    ensures !NeighboursOverlap(spans) ==> StrictlySorted(spans)
  {
    if !NeighboursOverlap(spans) {
      forall i, j | 0 <= i < j < |spans| ensures spans[i].End() <= spans[j].start {
        assert !(spans[i].End() > spans[i + 1].start);
      }
    }
  }

  /** One of the two ends before the other starts. */
  predicate Beside(x: Span, y: Span) {
    x.End() <= y.start || y.End() <= x.start
  }

  predicate AllBeside(x: Span, spans: seq<Span>) {
    forall y :: y in spans ==> Beside(x, y)
  }

  /** No two spans of the batch, in whatever order, share a position. */
  ghost predicate Apart(spans: seq<Span>) {
    forall i, j :: 0 <= i < j < |spans| ==> Beside(spans[i], spans[j])
  }

  lemma {:induction false} ApartSnoc(spans: seq<Span>, x: Span)
    ensures Apart(spans + [x]) <==> Apart(spans) && AllBeside(x, spans)
  {
    var all := spans + [x];
    assert all[|spans|] == x && forall i :: 0 <= i < |spans| ==> all[i] == spans[i];
    if Apart(all) {
      forall i, j | 0 <= i < j < |spans| ensures Beside(spans[i], spans[j]) {
        assert Beside(all[i], all[j]);
      }
      forall y | y in spans ensures Beside(x, y) {
        var i :| 0 <= i < |spans| && spans[i] == y;
        assert Beside(all[i], all[|spans|]);
      }
    }
    if Apart(spans) && AllBeside(x, spans) {
      forall i, j | 0 <= i < j < |all| ensures Beside(all[i], all[j]) {
        if j == |spans| {
          assert spans[i] in spans;
        } else {
          assert Beside(spans[i], spans[j]);
        }
      }
    }
  }

  lemma {:induction false} BesideInserted(x: Span, y: Span, spans: seq<Span>)
    requires Sorted(spans)
    ensures AllBeside(x, Insert(y, spans)) <==> AllBeside(x, spans) && Beside(x, y)
  {
    var r := Insert(y, spans);
    assert forall z :: z in r <==> z in multiset(r);
    assert forall z :: z in spans <==> z in multiset(spans);
  }

  lemma {:induction false} ApartInserted(x: Span, spans: seq<Span>)
    requires Sorted(spans)
    ensures Apart(Insert(x, spans)) <==> Apart(spans) && AllBeside(x, spans)
  {
    if spans != [] {
      var init, last := spans[..|spans| - 1], spans[|spans| - 1];
      assert spans == init + [last];
      if last.start <= x.start {
        ApartSnoc(spans, x);
      } else {
        ApartInserted(x, init);
        ApartSnoc(Insert(x, init), last);
        ApartSnoc(init, last);
        BesideInserted(last, x, init);
        assert AllBeside(x, spans) <==> AllBeside(x, init) && Beside(x, last);
      }
    }
  }

  lemma {:induction false} ApartSorted(spans: seq<Span>)
    ensures Apart(SortByStart(spans)) <==> Apart(spans)
  {
    if spans != [] {
      var init, last := spans[..|spans| - 1], spans[|spans| - 1];
      assert spans == init + [last];
      ApartSorted(init);
      ApartInserted(last, SortByStart(init));
      ApartSnoc(init, last);
      var sorted := SortByStart(init);
      assert forall z :: z in sorted <==> z in multiset(sorted);
      assert forall z :: z in init <==> z in multiset(init);
    }
  }

  /** The tool sees an overlap exactly when two spans of the batch share a position. */
  lemma {:induction false} OverlapIsExact(spans: seq<Span>)
    requires NonEmpty(spans)
    ensures NeighboursOverlap(SortByStart(spans)) <==> !Apart(spans)
  {
    var sorted := SortByStart(spans);
    NonEmptyOfSame(spans, sorted);
    NeighbourCheckIsEnough(sorted);
    ApartSorted(spans);
    if Apart(sorted) {
      forall i, j | 0 <= i < j < |sorted| ensures sorted[i].End() <= sorted[j].start {
        assert Beside(sorted[i], sorted[j]);
      }
    }
  }

  // ----- Substitution -----

  /** Spans in order, disjoint, within [lo, hi]. */
  predicate Ordered(spans: seq<Span>, lo: nat, hi: nat) {
    if spans == [] then lo <= hi
    else lo <= spans[0].start && Ordered(spans[1..], spans[0].End(), hi)
  }

  lemma {:induction false} DisjointIsOrdered(spans: seq<Span>, lo: nat, hi: nat)
    requires PairwiseDisjoint(spans) && lo <= hi
    requires forall i :: 0 <= i < |spans| ==> lo <= spans[i].start && spans[i].End() <= hi
    ensures Ordered(spans, lo, hi)
  {
    if spans != [] {
      forall i | 0 <= i < |spans[1..]| ensures spans[0].End() <= spans[1..][i].start && spans[1..][i].End() <= hi {
        assert spans[1..][i] == spans[i + 1];
      }
      DisjointIsOrdered(spans[1..], spans[0].End(), hi);
    }
  }

  lemma {:induction false} OrderedBounds(spans: seq<Span>, lo: nat, hi: nat)
    requires Ordered(spans, lo, hi)
    ensures lo <= hi
    ensures forall i :: 0 <= i < |spans| ==> lo <= spans[i].start && spans[i].End() <= hi
  {
    if spans != [] {
      OrderedBounds(spans[1..], spans[0].End(), hi);
      forall i | 0 <= i < |spans| ensures lo <= spans[i].start && spans[i].End() <= hi {
        assert i > 0 ==> spans[i] == spans[1..][i - 1];
      }
    }
  }

  /** Simultaneous substitution: gaps of the original and replacements in turn. `s` is the window
      of a text that starts at `offset`; `from` and the spans are positions in that text. */
  function Substitute(s: Text, offset: nat, spans: seq<Span>, from: nat): Text
    requires offset <= from && Ordered(spans, from, offset + |s|)
  {
    OrderedBounds(spans, from, offset + |s|);
    if spans == [] then s[from - offset..]
    else s[from - offset..spans[0].start - offset] + spans[0].text + Substitute(s, offset, spans[1..], spans[0].End())
  }

  lemma {:induction false} SubstituteHead(s: Text, offset: nat, spans: seq<Span>, rest: seq<Span>, from: nat)
    requires spans != [] && spans[1..] == rest && offset <= from <= spans[0].start && spans[0].End() <= offset + |s|
    requires Ordered(rest, spans[0].End(), offset + |s|)
    ensures Ordered(spans, from, offset + |s|)
    ensures Substitute(s, offset, spans, from)
         == s[from - offset..spans[0].start - offset] + spans[0].text + Substitute(s, offset, rest, spans[0].End())
  {
  }

  /** Where the text still untouched by spans `i..` ends. */
  function Reached(offset: nat, spans: seq<Span>, i: nat): nat
    requires i <= |spans|
  {
    if i == 0 then offset else spans[i - 1].End()
  }

  lemma {:induction false} OrderedSuffix(spans: seq<Span>, lo: nat, hi: nat, i: nat)
    requires Ordered(spans, lo, hi) && i <= |spans|
    ensures Ordered(spans[i..], Reached(lo, spans, i), hi)
    decreases i
  {
    if i == 0 {
      assert spans[0..] == spans;
    } else {
      OrderedSuffix(spans, lo, hi, i - 1);
      assert spans[i - 1..][1..] == spans[i..] && spans[i - 1..][0] == spans[i - 1];
    }
  }

  lemma {:induction false} OrderedStep(s: Text, offset: nat, spans: seq<Span>, i: nat)
    requires Ordered(spans, offset, offset + |s|) && i < |spans|
    ensures Ordered(spans[i..], Reached(offset, spans, i), offset + |s|)
    ensures Ordered(spans[i + 1..], spans[i].End(), offset + |s|)
    ensures offset <= Reached(offset, spans, i) <= spans[i].start && spans[i].End() <= offset + |s|
  {
    OrderedSuffix(spans, offset, offset + |s|, i);
    OrderedSuffix(spans, offset, offset + |s|, i + 1);
    OrderedBounds(spans, offset, offset + |s|);
    assert spans[i..][0] == spans[i];
  }

  lemma {:induction false} SubstituteStep(s: Text, offset: nat, spans: seq<Span>, i: nat, from: nat)
    requires offset <= from && i < |spans| && Ordered(spans[i..], from, offset + |s|)
    requires Ordered(spans[i + 1..], spans[i].End(), offset + |s|)
    requires from <= spans[i].start && spans[i].End() <= offset + |s|
    ensures Substitute(s, offset, spans[i..], from)
         == s[from - offset..spans[i].start - offset] + spans[i].text
            + Substitute(s, offset, spans[i + 1..], spans[i].End())
  {
    assert spans[i..][0] == spans[i] && spans[i..][1..] == spans[i + 1..];
  }

  /** Cutting one span out of a text that is still original up to its end. */
  lemma {:induction false} CutStep(content: Text, from: nat, start: nat, length: nat, text: Text, rest: Text)
    requires from <= start && start + length <= |content|
    ensures var result := content[..start + length] + rest;
      result[..start] + text + result[start + length..] == content[..from] + (content[from..start] + text + rest)
  {
    var result := content[..start + length] + rest;
    assert result[..start] == content[..start] == content[..from] + content[from..start];
    assert result[start + length..] == rest;
  }

  /** The content with the spans from `i` on already replaced. */
  ghost function Patched(content: Text, offset: nat, spans: seq<Span>, i: nat): Text
    requires Ordered(spans, offset, offset + |content|) && i <= |spans|
  {
    OrderedSuffix(spans, offset, offset + |content|, i);
    OrderedBounds(spans, offset, offset + |content|);
    var at := Reached(offset, spans, i);
    content[..at - offset] + Substitute(content, offset, spans[i..], at)
  }

  lemma {:induction false} PatchedEnds(content: Text, offset: nat, spans: seq<Span>)
    requires Ordered(spans, offset, offset + |content|)
    ensures Patched(content, offset, spans, |spans|) == content
    ensures Patched(content, offset, spans, 0) == Substitute(content, offset, spans, offset)
  {
    assert spans[0..] == spans && spans[|spans|..] == [];
    OrderedBounds(spans, offset, offset + |content|);
    var at := Reached(offset, spans, |spans|);
    assert content[..at - offset] + content[at - offset..] == content;
    assert content[..0] + Substitute(content, offset, spans, offset) == Substitute(content, offset, spans, offset);
  }

  lemma {:induction false} PatchedForm(content: Text, offset: nat, spans: seq<Span>, i: nat)
    requires Ordered(spans, offset, offset + |content|) && i <= |spans|
    ensures var at := Reached(offset, spans, i);
      && offset <= at <= offset + |content| && Ordered(spans[i..], at, offset + |content|)
      && Patched(content, offset, spans, i) == content[..at - offset] + Substitute(content, offset, spans[i..], at)
  {
    OrderedSuffix(spans, offset, offset + |content|, i);
    OrderedBounds(spans, offset, offset + |content|);
  }

  lemma {:induction false} PatchedStep(content: Text, offset: nat, spans: seq<Span>, i: nat)
    requires Ordered(spans, offset, offset + |content|) && i < |spans|
    ensures var result := Patched(content, offset, spans, i + 1);
      var start := spans[i].start - offset;
      && 0 <= start && start + spans[i].length <= |result|
      && result[..start] + spans[i].text + result[start + spans[i].length..] == Patched(content, offset, spans, i)
  {
    var from, rest := PatchedParts(content, offset, spans, i);
    CutStep(content, from, spans[i].start - offset, spans[i].length, spans[i].text, rest);
  }

  /** Two neighbouring stages, by the part they share. */
  lemma {:induction false} PatchedParts(content: Text, offset: nat, spans: seq<Span>, i: nat) returns (from: nat, rest: Text)
    requires Ordered(spans, offset, offset + |content|) && i < |spans|
    ensures 0 <= from <= spans[i].start - offset && spans[i].End() - offset <= |content|
    ensures Patched(content, offset, spans, i + 1) == content[..spans[i].End() - offset] + rest
    ensures Patched(content, offset, spans, i)
         == content[..from] + (content[from..spans[i].start - offset] + spans[i].text + rest)
  {
    OrderedStep(content, offset, spans, i);
    var at := Reached(offset, spans, i);
    PatchedForm(content, offset, spans, i);
    PatchedForm(content, offset, spans, i + 1);
    SubstituteStep(content, offset, spans, i, at);
    from := at - offset;
    rest := Substitute(content, offset, spans[i + 1..], spans[i].End());
  }

  /** Apply the spans in place, last one first, so that earlier offsets stay valid. */
  method ApplyReplacements(content: Text, spans: seq<Span>, offset: nat) returns (result: Text)
    requires Ordered(spans, offset, offset + |content|)
    ensures result == Substitute(content, offset, spans, offset)
  {
    result := content;
    PatchedEnds(content, offset, spans);
    var i := |spans|;
    while i > 0
      invariant 0 <= i <= |spans| && result == Patched(content, offset, spans, i)
    {
      i := i - 1;
      PatchedStep(content, offset, spans, i);
      var start := spans[i].start - offset;
      result := result[..start] + spans[i].text + result[start + spans[i].length..];
    }
  }

  /** How far the first `k` replacements move what follows them. */
  function Shift(spans: seq<Span>, k: nat): int
    requires k <= |spans|
  {
    if k == 0 then 0 else |spans[0].text| - spans[0].length + Shift(spans[1..], k - 1)
  }

  lemma {:induction false} AfterFirst(s: Text, spans: seq<Span>, from: nat) returns (gap: Text, rest: Text)
    requires spans != [] && Ordered(spans, from, |s|)
    ensures from <= spans[0].start && spans[0].End() <= |s| && Ordered(spans[1..], spans[0].End(), |s|)
    ensures gap == s[from..spans[0].start] && rest == Substitute(s, 0, spans[1..], spans[0].End())
    ensures Substitute(s, 0, spans, from) == gap + (spans[0].text + rest)
  {
    OrderedBounds(spans[1..], spans[0].End(), |s|);
    gap, rest := s[from..spans[0].start], Substitute(s, 0, spans[1..], spans[0].End());
    Assoc(gap, spans[0].text, rest);
  }

  /** `text` stands in `r` at position `p`. */
  predicate StandsAt(r: Text, text: Text, p: int) {
    0 <= p && p + |text| <= |r| && r[p..p + |text|] == text
  }

  lemma {:induction false} StandsBehind(a: Text, b: Text, c: Text, text: Text, q: int)
    ensures StandsAt(a + (b + c), b, |a|)
    ensures StandsAt(c, text, q) ==> StandsAt(a + (b + c), text, |a| + |b| + q)
  {
    var r := a + (b + c);
    assert r[|a|..|a| + |b|] == b;
    if StandsAt(c, text, q) {
      var d := |a| + |b|;
      assert r[d + q..d + q + |text|] == c[q..q + |text|];
    }
  }

  /** Every replacement stands in the result whole, where its span began, moved by those before it. */
  lemma {:induction false} ReplacementLands(s: Text, spans: seq<Span>, from: nat, k: nat)
    requires Ordered(spans, from, |s|) && k < |spans|
    ensures StandsAt(Substitute(s, 0, spans, from), spans[k].text, spans[k].start - from + Shift(spans, k))
    decreases k
  {
    var gap, rest := AfterFirst(s, spans, from);
    var later := if k == 0 then 0 else spans[k].start - spans[0].End() + Shift(spans[1..], k - 1);
    if k > 0 {
      ReplacementLands(s, spans[1..], spans[0].End(), k - 1);
    }
    StandsBehind(gap, spans[0].text, rest, spans[k].text, later);
  }

  /** Every character outside the spans stands in the result, moved by the spans before it: `k` of
      them end at or before position `q`, and the others start behind it. */
  lemma {:induction false} UntouchedStays(s: Text, spans: seq<Span>, from: nat, q: nat, k: nat)
    requires Ordered(spans, from, |s|) && from <= q < |s| && k <= |spans|
    requires (k > 0 ==> spans[k - 1].End() <= q) && (k < |spans| ==> q < spans[k].start)
    ensures var r, p := Substitute(s, 0, spans, from), q - from + Shift(spans, k);
      0 <= p < |r| && r[p] == s[q]
    decreases k
  {
    if spans != [] {
      var gap, rest := AfterFirst(s, spans, from);
      var r := gap + (spans[0].text + rest);
      if k == 0 {
        assert r[q - from] == gap[q - from];
      } else {
        LaterEnds(spans, from, |s|, k - 1);
        UntouchedStays(s, spans[1..], spans[0].End(), q, k - 1);
        var p := q - spans[0].End() + Shift(spans[1..], k - 1);
        assert r[|gap| + |spans[0].text| + p] == rest[p];
      }
    }
  }

  lemma {:induction false} LaterEnds(spans: seq<Span>, lo: nat, hi: nat, k: nat)
    requires Ordered(spans, lo, hi) && k < |spans|
    ensures spans[0].End() <= spans[k].End()
  {
    if k > 0 {
      OrderedBounds(spans[1..], spans[0].End(), hi);
      assert spans[1..][k - 1] == spans[k];
    }
  }

  /** And there is nothing else: the result is as long as those together. */
  lemma {:induction false} SubstituteLength(s: Text, spans: seq<Span>, from: nat)
    requires Ordered(spans, from, |s|)
    ensures |Substitute(s, 0, spans, from)| == |s| - from + Shift(spans, |spans|)
  {
    if spans != [] {
      SubstituteLength(s, spans[1..], spans[0].End());
      var gap, rest := AfterFirst(s, spans, from);
    }
  }

  lemma {:induction false} NonEmptyOfSame(spans: seq<Span>, other: seq<Span>)
    requires NonEmpty(spans) && multiset(spans) == multiset(other)
    ensures NonEmpty(other)
  {
    forall i | 0 <= i < |other| ensures other[i].length > 0 {
      assert other[i] in multiset(spans);
      assert other[i] in spans;
    }
  }

  /** Sorting and checking give the same verdict, and the same plan, for every order of the batch. */
  lemma {:induction false} PlanIgnoresOrder(spans: seq<Span>, shuffled: seq<Span>)
    requires NonEmpty(spans) && multiset(spans) == multiset(shuffled)
    ensures NeighboursOverlap(SortByStart(spans)) <==> NeighboursOverlap(SortByStart(shuffled))
    ensures !NeighboursOverlap(SortByStart(spans)) ==> SortByStart(spans) == SortByStart(shuffled)
  {
    var p, q := SortByStart(spans), SortByStart(shuffled);
    NonEmptyOfSame(spans, p);
    NonEmptyOfSame(spans, q);
    NeighbourCheckIsEnough(p);
    NeighbourCheckIsEnough(q);
    if !NeighboursOverlap(p) {
      SortedOrderUnique(p, q);
    } else if !NeighboursOverlap(q) {
      SortedOrderUnique(q, p);
    }
  }
}

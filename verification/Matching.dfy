/** Locating the old text: exact search first, then search in the normal form, and the
    occurrence count that guards uniqueness. */
module Matching {
  import opened Wrappers
  import opened Lines
  import opened Normalize

  predicate At(s: Text, pattern: Text, i: nat) {
    i + |pattern| <= |s| && s[i..i + |pattern|] == pattern
  }

  /** The first occurrence at or after `i`. */
  function FindFrom(s: Text, pattern: Text, i: nat): (r: Option<nat>)
    ensures r.Some? ==> i <= r.value && At(s, pattern, r.value) && forall j :: i <= j < r.value ==> !At(s, pattern, j)
    ensures r.None? ==> forall j :: i <= j ==> !At(s, pattern, j)
    decreases |s| - i
  {
    if i + |pattern| > |s| then None
    else if At(s, pattern, i) then Some(i)
    else FindFrom(s, pattern, i + 1)
  }

  /** Left-to-right, non-overlapping occurrences from `i` on. */
  function CountFrom(s: Text, pattern: Text, i: nat): nat
    requires pattern != []
    decreases |s| - i
  {
    match FindFrom(s, pattern, i)
    case None => 0
    case Some(k) => 1 + CountFrom(s, pattern, k + |pattern|)
  }

  datatype Match = Missing | Found(index: nat, length: nat, normalized: bool)

  function FindText(content: Text, oldText: Text): Match {
    match FindFrom(content, oldText, 0)
    case Some(i) => Found(i, |oldText|, false)
    case None =>
      var pattern := NormalizeForMatch(oldText);
      if pattern == [] then Missing else
      match FindFrom(NormalizeForMatch(content), pattern, 0)
      case Some(i) => Found(i, |pattern|, true)
      case None => Missing
  }

  function CountOccurrences(content: Text, oldText: Text): nat {
    var pattern := NormalizeForMatch(oldText);
    if pattern == [] then 0 else CountFrom(NormalizeForMatch(content), pattern, 0)
  }

  /** The checks one edit passes before it is planned. */
  predicate Accepted(content: Text, oldText: Text) {
    FindText(content, oldText).Found? && CountOccurrences(content, oldText) <= 1
  }

  ghost predicate TwoDisjoint(s: Text, pattern: Text) {
    exists i: nat, j: nat :: At(s, pattern, i) && At(s, pattern, j) && i + |pattern| <= j
  }

  lemma {:induction false} TwoCounted(s: Text, pattern: Text, i: nat, j: nat)
    requires pattern != [] && At(s, pattern, i) && At(s, pattern, j) && i + |pattern| <= j
    ensures CountFrom(s, pattern, 0) >= 2
  {
    var first := FindFrom(s, pattern, 0);
    var second := FindFrom(s, pattern, first.value + |pattern|);
    assert second.Some?;
    assert CountFrom(s, pattern, 0) == 1 + CountFrom(s, pattern, first.value + |pattern|);
  }

  lemma {:induction false} SplitAround(content: Text, oldText: Text, i: nat, j: nat) returns (a: Text, m: Text, b: Text)
    requires At(content, oldText, i) && At(content, oldText, j) && i + |oldText| <= j
    ensures content == a + (oldText + (m + (oldText + b)))
  {
    a, m, b := content[..i], content[i + |oldText|..j], content[j + |oldText|..];
  }

  lemma {:induction false} ShowTwoIn(n1: Text, n2: Text, n3: Text, n4: Text, na: Text, p1: Text, o: Text, p2: Text, nm: Text, p3: Text, p4: Text, nb: Text)
    requires n1 == na + p1 + n2 && n2 == o + p2 + n3 && n3 == nm + p3 + n4 && n4 == o + p4 + nb
    ensures TwoDisjoint(n1, o)
  {
    assert n1 == (na + p1) + o + (p2 + nm + p3) + o + (p4 + nb);
    ShowTwo(na + p1, o, p2 + nm + p3, p4 + nb);
  }

  /** Two disjoint exact occurrences survive normalization as two disjoint occurrences. */
  lemma {:induction false} OccurrencesSurvive(content: Text, oldText: Text, i: nat, j: nat)
    requires At(content, oldText, i) && At(content, oldText, j) && i + |oldText| <= j
    ensures TwoDisjoint(NormalizeForMatch(content), NormalizeForMatch(oldText))
  {
    var a, m, b := SplitAround(content, oldText, i, j);
    NormalTwo(a, oldText, m, b);
  }

  lemma {:induction false} NormalTwo(a: Text, oldText: Text, m: Text, b: Text)
    ensures TwoDisjoint(NormalizeForMatch(a + (oldText + (m + (oldText + b)))), NormalizeForMatch(oldText))
  {
    var t4 := oldText + b;
    var t3 := m + t4;
    var t2 := oldText + t3;
    var p1 := NormalizeConcat(a, t2);
    var p2 := NormalizeConcat(oldText, t3);
    var p3 := NormalizeConcat(m, t4);
    var p4 := NormalizeConcat(oldText, b);
    ShowTwoIn(NormalizeForMatch(a + t2), NormalizeForMatch(t2), NormalizeForMatch(t3), NormalizeForMatch(t4),
              NormalizeForMatch(a), p1, NormalizeForMatch(oldText), p2, NormalizeForMatch(m), p3, p4, NormalizeForMatch(b));
  }

  lemma {:induction false} ShowTwo(x: Text, o: Text, y: Text, z: Text)
    ensures TwoDisjoint(x + o + y + o + z, o)
  {
    var s := x + o + y + o + z;
    assert s[|x|..|x| + |o|] == o;
    assert At(s, o, |x|);
    var j := |x| + |o| + |y|;
    assert s[j..j + |o|] == o;
    assert At(s, o, j);
  }

  /** The greedy count exceeds one exactly when there are two disjoint occurrences. */
  lemma {:induction false} CountIsExact(s: Text, pattern: Text)
    requires pattern != []
    ensures CountFrom(s, pattern, 0) >= 2 <==> TwoDisjoint(s, pattern)
  {
    if TwoDisjoint(s, pattern) {
      var i: nat, j: nat :| At(s, pattern, i) && At(s, pattern, j) && i + |pattern| <= j;
      TwoCounted(s, pattern, i, j);
    }
    if CountFrom(s, pattern, 0) >= 2 {
      var i := FindFrom(s, pattern, 0).value;
      var j := FindFrom(s, pattern, i + |pattern|).value;
      assert At(s, pattern, i) && At(s, pattern, j) && i + |pattern| <= j;
    }
  }

  /** An old text that counts at most once, its normal form not empty, has no second disjoint
      occurrence: neither itself in the content, nor its normal form in the normal form of it. */
  lemma {:induction false} CountedOnceIsUnique(content: Text, oldText: Text)
    requires NormalizeForMatch(oldText) != [] && CountOccurrences(content, oldText) <= 1
    ensures !TwoDisjoint(content, oldText)
    ensures !TwoDisjoint(NormalizeForMatch(content), NormalizeForMatch(oldText))
  {
    CountIsExact(NormalizeForMatch(content), NormalizeForMatch(oldText));
    if TwoDisjoint(content, oldText) {
      var i: nat, j: nat :| At(content, oldText, i) && At(content, oldText, j) && i + |oldText| <= j;
      OccurrencesSurvive(content, oldText, i, j);
    }
  }

  /** An accepted old text whose normal form is not empty has no second disjoint occurrence. */
  lemma {:induction false} AcceptedIsUnique(content: Text, oldText: Text)
    requires NormalizeForMatch(oldText) != [] && Accepted(content, oldText)
    ensures !TwoDisjoint(content, oldText)
    ensures !TwoDisjoint(NormalizeForMatch(content), NormalizeForMatch(oldText))
  {
    CountedOnceIsUnique(content, oldText);
  }

  ghost predicate ApartWheneverAccepted(oldText: Text) {
    forall content :: Accepted(content, oldText) ==> !TwoDisjoint(content, oldText)
  }

  /** Acceptance rules out a second disjoint occurrence for exactly the old texts that do not
      normalize to nothing: a blank old text is never counted, so its first occurrence is taken
      however many there are. */
  lemma {:induction false} DisjointUniquenessIsExact(oldText: Text)
    requires oldText != []
    ensures ApartWheneverAccepted(oldText) <==> NormalizeForMatch(oldText) != []
  {
    if NormalizeForMatch(oldText) != [] {
      forall content | Accepted(content, oldText) ensures !TwoDisjoint(content, oldText) {
        AcceptedIsUnique(content, oldText);
      }
    } else {
      var content := oldText + oldText;
      assert content[0..0 + |oldText|] == oldText && content[|oldText|..|oldText| + |oldText|] == oldText;
      assert At(content, oldText, 0) && At(content, oldText, |oldText|);
      assert Accepted(content, oldText) && TwoDisjoint(content, oldText);
    }
  }

  // ----- What the search and the count find -----

  ghost predicate Occurs(s: Text, pattern: Text) {
    exists i: nat :: At(s, pattern, i)
  }

  predicate IsFirst(s: Text, pattern: Text, i: nat) {
    At(s, pattern, i) && forall j :: 0 <= j < i ==> !At(s, pattern, j)
  }

  /** The search prefers the text as it is: a match is by normal forms only when the old text does
      not occur as it is, and is the first one either way. */
  lemma {:induction false} FindTextExactly(content: Text, oldText: Text)
    ensures var m := FindText(content, oldText);
      var n, o := NormalizeForMatch(content), NormalizeForMatch(oldText);
      && (m.Found? && !m.normalized <==> Occurs(content, oldText))
      && (m.Found? && m.normalized <==> !Occurs(content, oldText) && o != [] && Occurs(n, o))
      && (m.Found? && !m.normalized ==> IsFirst(content, oldText, m.index) && m.length == |oldText|)
      && (m.Found? && m.normalized ==> IsFirst(n, o, m.index) && m.length == |o|)
  {
  }

  /** Positions of occurrences, each behind the end of the one before. */
  ghost predicate Occurrences(s: Text, pattern: Text, from: nat, at: seq<nat>) {
    && (forall k :: 0 <= k < |at| ==> from <= at[k] && At(s, pattern, at[k]))
    && (forall j, k :: 0 <= j < k < |at| ==> at[j] + |pattern| <= at[k])
  }

  lemma {:induction false} GreedyIsMost(s: Text, pattern: Text, from: nat, at: seq<nat>)
    requires pattern != [] && Occurrences(s, pattern, from, at)
    ensures |at| <= CountFrom(s, pattern, from)
    decreases |at|
  {
    if at != [] {
      assert At(s, pattern, at[0]) && from <= at[0];
      var first := FindFrom(s, pattern, from).value;
      assert first <= at[0];
      GreedyIsMost(s, pattern, first + |pattern|, at[1..]);
    }
  }

  lemma {:induction false} GreedyFinds(s: Text, pattern: Text, from: nat) returns (at: seq<nat>)
    requires pattern != []
    ensures Occurrences(s, pattern, from, at) && |at| == CountFrom(s, pattern, from)
    decreases |s| - from
  {
    match FindFrom(s, pattern, from)
    case None => at := [];
    case Some(i) =>
      var rest := GreedyFinds(s, pattern, i + |pattern|);
      at := [i] + rest;
  }

  /** The count is the greatest number of disjoint occurrences there are. */
  lemma {:induction false} CountIsMost(s: Text, pattern: Text)
    requires pattern != []
    ensures exists at :: Occurrences(s, pattern, 0, at) && |at| == CountFrom(s, pattern, 0)
    ensures forall at :: Occurrences(s, pattern, 0, at) ==> |at| <= CountFrom(s, pattern, 0)
  {
    var greedy := GreedyFinds(s, pattern, 0);
    forall at | Occurrences(s, pattern, 0, at) ensures |at| <= CountFrom(s, pattern, 0) {
      GreedyIsMost(s, pattern, 0, at);
    }
  }

  // ----- Occurrences that overlap -----

  ghost predicate AtMostOne(s: Text, pattern: Text) {
    forall i: nat, j: nat :: At(s, pattern, i) && At(s, pattern, j) ==> i == j
  }

  /** Moved by `p`, the text agrees with itself where the two copies overlap. */
  predicate Repeats(text: Text, p: nat) {
    0 < p < |text| && text[p..] == text[..|text| - p]
  }

  /** The shortest text in which two copies stand `p` apart. */
  function TwoCopies(text: Text, p: nat): Text
    requires p <= |text|
  {
    text[..p] + text
  }

  lemma {:induction false} TwoCopiesHold(text: Text, p: nat)
    requires Repeats(text, p)
    ensures At(TwoCopies(text, p), text, 0) && At(TwoCopies(text, p), text, p)
  {
    var w := TwoCopies(text, p);
    assert w[p..p + |text|] == text;
    forall i | 0 <= i < |text| ensures w[..|text|][i] == text[i] {
      if i >= p {
        assert text[p..][i - p] == text[..|text| - p][i - p];
      }
    }
    assert w[0..0 + |text|] == text;
  }

  /** Two overlapping occurrences show the text agreeing with itself, and the shortest such text. */
  lemma {:induction false} OverlapRepeats(s: Text, text: Text, i: nat, j: nat) returns (before: Text, behind: Text)
    requires At(s, text, i) && At(s, text, j) && i < j < i + |text|
    ensures Repeats(text, j - i) && s == before + TwoCopies(text, j - i) + behind
  {
    OverlapAgrees(s, text, i, j);
    before, behind := s[..i], s[j + |text|..];
    assert s[i..j] == s[i..i + |text|][..j - i] == text[..j - i];
    assert s == s[..i] + (s[i..j] + s[j..j + |text|]) + s[j + |text|..];
  }

  lemma {:induction false} OverlapAgrees(s: Text, text: Text, i: nat, j: nat)
    requires At(s, text, i) && At(s, text, j) && i < j < i + |text|
    ensures Repeats(text, j - i)
  {
    var p := j - i;
    forall k | 0 <= k < |text| - p ensures text[p..][k] == text[..|text| - p][k] {
      assert s[i..i + |text|][p + k] == s[j..j + |text|][k];
    }
  }

  /** What counts twice inside a text counts twice in the whole. */
  lemma {:induction false} CountGrows(a: Text, w: Text, b: Text, oldText: Text)
    requires NormalizeForMatch(oldText) != [] && CountOccurrences(w, oldText) >= 2
    ensures CountOccurrences(a + w + b, oldText) >= 2
  {
    var front, back := NormalInside(a, w, b);
    CountIsExact(NormalizeForMatch(w), NormalizeForMatch(oldText));
    TwoInside(front, NormalizeForMatch(w), back, NormalizeForMatch(oldText));
    CountIsExact(NormalizeForMatch(a + w + b), NormalizeForMatch(oldText));
  }

  /** The normal form of a text holds the normal form of each part of it. */
  lemma {:induction false} NormalInside(a: Text, w: Text, b: Text) returns (front: Text, back: Text)
    ensures NormalizeForMatch(a + w + b) == front + NormalizeForMatch(w) + back
  {
    var p := NormalizeConcat(a, w);
    var q := NormalizeConcat(a + w, b);
    front, back := NormalizeForMatch(a) + p, q + NormalizeForMatch(b);
    Assoc(front + NormalizeForMatch(w), q, NormalizeForMatch(b));
  }

  lemma {:induction false} TwoInside(front: Text, n: Text, back: Text, o: Text)
    requires TwoDisjoint(n, o)
    ensures TwoDisjoint(front + n + back, o)
  {
    var i: nat, j: nat :| At(n, o, i) && At(n, o, j) && i + |o| <= j;
    InsideAt(front, n, back, o, i);
    InsideAt(front, n, back, o, j);
  }

  lemma {:induction false} InsideAt(front: Text, n: Text, back: Text, o: Text, k: nat)
    requires At(n, o, k)
    ensures At(front + n + back, o, |front| + k)
  {
    assert (front + n + back)[|front| + k..|front| + k + |o|] == n[k..k + |o|];
  }

  ghost predicate UniqueWheneverAccepted(oldText: Text) {
    forall content :: Accepted(content, oldText) ==> AtMostOne(content, oldText)
  }

  /** What a caller can tell from the old text alone: it does not normalize to nothing, and wherever
      it agrees with itself moved, the two copies are counted as two. */
  predicate TellsCopiesApart(oldText: Text) {
    && NormalizeForMatch(oldText) != []
    && forall p :: 0 < p < |oldText| && Repeats(oldText, p) ==> CountOccurrences(TwoCopies(oldText, p), oldText) >= 2
  }

  /** Acceptance guarantees that the old text occurs once, overlaps included, for exactly the old
      texts that tell their copies apart. */
  lemma {:induction false} UniquenessIsExact(oldText: Text)
    requires oldText != []
    ensures UniqueWheneverAccepted(oldText) <==> TellsCopiesApart(oldText)
  {
    if TellsCopiesApart(oldText) {
      forall content | Accepted(content, oldText) ensures AtMostOne(content, oldText) {
        forall i: nat, j: nat | At(content, oldText, i) && At(content, oldText, j) && i < j ensures false {
          SecondIsCounted(content, oldText, i, j);
        }
      }
    } else if NormalizeForMatch(oldText) == [] {
      DisjointUniquenessIsExact(oldText);
    } else {
      var p :| 0 < p < |oldText| && Repeats(oldText, p) && CountOccurrences(TwoCopies(oldText, p), oldText) < 2;
      TwoCopiesHold(oldText, p);
      assert Accepted(TwoCopies(oldText, p), oldText);
    }
  }

  /** A second occurrence, disjoint or not, of such a text is counted. */
  lemma {:induction false} SecondIsCounted(content: Text, oldText: Text, i: nat, j: nat)
    requires oldText != [] && TellsCopiesApart(oldText) && At(content, oldText, i) && At(content, oldText, j) && i < j
    ensures CountOccurrences(content, oldText) >= 2
  {
    if j < i + |oldText| {
      var before, behind := OverlapRepeats(content, oldText, i, j);
      CountGrows(before, TwoCopies(oldText, j - i), behind, oldText);
    } else if CountOccurrences(content, oldText) <= 1 {
      CountedOnceIsUnique(content, oldText);
    }
  }

  lemma {:induction false} LettersAreNormal()
    ensures NormalizeForMatch("aa") == "aa" && NormalizeForMatch("aaa") == "aaa"
  {
    TrimLinesIsPass("aa");
    TrimLinesIsPass("aaa");
    assert MapText("aa") == "aa" && MapText("aaa") == "aaa";
    assert "aaa"[1..] == "aa" && "aa"[1..] == "a" && "a"[1..] == [];
    assert Trimmed("a") == "a" && Trimmed("aa") == "aa";
  }

  /** An accepted edit that is not unique: "aa" occurs twice in "aaa", overlapping. */
  lemma {:induction false} OverlapIsAccepted()
    ensures Accepted("aaa", "aa") && At("aaa", "aa", 0) && At("aaa", "aa", 1)
  {
    LettersAreNormal();
    assert At("aaa", "aa", 0) && At("aaa", "aa", 1);
    CountIsExact("aaa", "aa");
    assert !TwoDisjoint("aaa", "aa");
  }

  /** A match found on normalized or unnormalized text lies inside it, is not empty, and reads the
      old text or its normal form there. On a text that is already normal, both searches agree on offsets. */
  lemma {:induction false} MatchReads(base: Text, oldText: Text)
    requires oldText != [] && FindText(base, oldText).Found?
    requires FindText(base, oldText).normalized ==> NormalizeForMatch(base) == base
    ensures var m := FindText(base, oldText);
      && m.length > 0
      && m.index + m.length <= |base|
      && base[m.index..m.index + m.length] == if m.normalized then NormalizeForMatch(oldText) else oldText
  {
  }

  /** The base the edits are planned on: the content, or its normal form when some edit needs it. */
  function ReplacementBase(content: Text, normalized: bool): Text {
    if normalized then NormalizeForMatch(content) else content
  }

  /** Second-pass offsets are sound: on the replacement base every match lies inside the base. */
  lemma {:induction false} SecondPassIsSound(content: Text, oldText: Text, normalized: bool)
    requires oldText != [] && (FindText(content, oldText).Found? && FindText(content, oldText).normalized ==> normalized)
    requires FindText(ReplacementBase(content, normalized), oldText).Found?
    ensures var base := ReplacementBase(content, normalized);
      var m := FindText(base, oldText);
      && m.length > 0
      && m.index + m.length <= |base|
      && (base[m.index..m.index + m.length] == oldText || base[m.index..m.index + m.length] == NormalizeForMatch(oldText))
  {
    NormalizeIdempotent(content);
    MatchReads(ReplacementBase(content, normalized), oldText);
  }
}

/** Matching with composition in front of the character table: what carries over for any composition,
    and where a composition breaks the promise of uniqueness. */
module Composition {
  import opened Lines
  import opened Normalize
  import opened Matching

  /** Joining characters, as a compatibility composition does; here any function of texts. */
  type Composition = Text -> Text

  function FullForm(compose: Composition, s: Text): Text {
    NormalizeForMatch(compose(s))
  }

  /** The search and the count of the tool, on composed forms. */
  predicate FullAccepted(compose: Composition, content: Text, oldText: Text) {
    var pattern := FullForm(compose, oldText);
    && (FindFrom(content, oldText, 0).Some? || (pattern != [] && FindFrom(FullForm(compose, content), pattern, 0).Some?))
    && (pattern != [] ==> CountFrom(FullForm(compose, content), pattern, 0) <= 1)
  }

  /** With nothing to compose it is the search and the count without composition. */
  lemma {:induction false} NothingToCompose(content: Text, oldText: Text)
    ensures FullAccepted(s => s, content, oldText) <==> Accepted(content, oldText)
  {
    var id: Composition := s => s;
    assert FullForm(id, content) == NormalizeForMatch(content) && FullForm(id, oldText) == NormalizeForMatch(oldText);
  }

  /** The content, cut around two disjoint occurrences of the old text. */
  ghost predicate CutsAround(content: Text, a: Text, oldText: Text, m: Text, b: Text) {
    content == a + (oldText + (m + (oldText + b)))
  }

  /** Composition joins no characters across the edges of the two occurrences. */
  ghost predicate LeavesEdges(compose: Composition, content: Text, a: Text, oldText: Text, m: Text, b: Text) {
    compose(content) == compose(a) + (compose(oldText) + (compose(m) + (compose(oldText) + compose(b))))
  }

  /** Under any composition: an accepted old text whose full form is not empty has no two disjoint
      occurrences whose edges composition leaves alone. */
  lemma {:induction false} AcceptedIsUniqueWhereLeftAlone(compose: Composition, content: Text, a: Text, oldText: Text, m: Text, b: Text)
    requires FullForm(compose, oldText) != [] && FullAccepted(compose, content, oldText)
    requires CutsAround(content, a, oldText, m, b)
    ensures !LeavesEdges(compose, content, a, oldText, m, b)
  {
    if LeavesEdges(compose, content, a, oldText, m, b) {
      NormalTwo(compose(a), compose(oldText), compose(m), compose(b));
      CountIsExact(FullForm(compose, content), FullForm(compose, oldText));
      assert false;
    }
  }

  // ----- A composition at work -----

  const ACUTE := '\U{0301}'
  const E_ACUTE := '\U{00e9}'

  /** "e" followed by the combining acute accent becomes one character; the rest stays. */
  function JoinAcute(s: Text): Text {
    if |s| >= 2 && s[0] == 'e' && s[1] == ACUTE then [E_ACUTE] + JoinAcute(s[2..])
    else if s == [] then []
    else [s[0]] + JoinAcute(s[1..])
  }

  const ACCENTED: Text := ['e', ACUTE, 'e', ACUTE]

  lemma {:induction false} AccentedForms()
    ensures FullForm(JoinAcute, ACCENTED) == [E_ACUTE, E_ACUTE] && FullForm(JoinAcute, "e") == "e"
  {
    var joined := [E_ACUTE, E_ACUTE];
    assert ACCENTED[2..] == ['e', ACUTE] && ['e', ACUTE][2..] == [];
    assert JoinAcute(['e', ACUTE]) == [E_ACUTE] && JoinAcute(ACCENTED) == joined;
    assert "e"[1..] == [] && JoinAcute("e") == "e";
    assert MapText(joined) == joined && MapText("e") == "e";
    TrimLinesIsPass(joined);
    TrimLinesIsPass("e");
    assert joined[1..] == [E_ACUTE] && [E_ACUTE][1..] == [];
    assert Trimmed([E_ACUTE]) == [E_ACUTE] && Trimmed(joined) == joined && Trimmed("e") == "e";
  }

  /** The edit is accepted although its old text occurs twice: composition has joined each occurrence
      to the accent behind it, so that none is counted. */
  lemma {:induction false} JoinedIsNotCounted()
    ensures FullAccepted(JoinAcute, ACCENTED, "e") && TwoDisjoint(ACCENTED, "e")
  {
    AccentedForms();
    assert At(ACCENTED, "e", 0) && At(ACCENTED, "e", 2);
    var joined := [E_ACUTE, E_ACUTE];
    assert forall i: nat :: At(joined, "e", i) ==> joined[i..i + 1][0] == 'e';
    assert FindFrom(joined, "e", 0).None?;
  }
}

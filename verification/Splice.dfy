/** Line endings, and the splice that writes new content back over the original text: unchanged
    lines keep their original characters, inserted lines get the file's own ending. */
module Splice {
  import opened Lines
  import opened Normalize
  import opened Matching
  import opened GroupedEdit

  datatype LineEnding = Lf | CrLf

  // ----- Normalizing line endings -----

  function CollapseCrLf(s: Text): Text {
    if s == [] then []
    else if |s| >= 2 && s[0] == '\r' && s[1] == '\n' then ['\n'] + CollapseCrLf(s[2..])
    else [s[0]] + CollapseCrLf(s[1..])
  }

  function CrToLf(s: Text): (r: Text)
    ensures |r| == |s| && forall i :: 0 <= i < |s| ==> r[i] == if s[i] == '\r' then '\n' else s[i]
  {
    seq(|s|, i requires 0 <= i < |s| => if s[i] == '\r' then '\n' else s[i])
  }

  predicate StartsPair(s: Text) {
    |s| >= 2 && s[0] == '\r' && s[1] == '\n'
  }

  /** Every CRLF pair and every lone CR becomes a newline. */
  function ToLf(s: Text): Text {
    if s == [] then []
    else if StartsPair(s) then ['\n'] + ToLf(s[2..])
    else [if s[0] == '\r' then '\n' else s[0]] + ToLf(s[1..])
  }

  /** One pass does what the two replacements do: pairs first, then what CRs are left. */
  lemma {:induction false} ToLfIsTwoReplacements(s: Text)
    ensures ToLf(s) == CrToLf(CollapseCrLf(s))
  {
    if s != [] {
      var rest := if StartsPair(s) then s[2..] else s[1..];
      ToLfIsTwoReplacements(rest);
    }
  }

  predicate NoCr(s: Text) {
    forall i :: 0 <= i < |s| ==> s[i] != '\r'
  }

  lemma {:induction false} ToLfHasNoCr(s: Text)
    ensures NoCr(ToLf(s))
  {
    ToLfIsTwoReplacements(s);
  }

  lemma {:induction false} ToLfKeeps(s: Text)
    requires NoCr(s)
    ensures ToLf(s) == s
  {
    if s != [] {
      ToLfKeeps(s[1..]);
    }
  }

  predicate EndsCr(s: Text) {
    s != [] && s[|s| - 1] == '\r'
  }

  predicate StartsLf(s: Text) {
    s != [] && s[0] == '\n'
  }

  lemma {:induction false} PairStays(x: Text, y: Text)
    requires x != [] && !(EndsCr(x) && StartsLf(y))
    ensures StartsPair(x + y) <==> StartsPair(x)
    ensures StartsPair(x) ==> (x + y)[2..] == x[2..] + y && (EndsCr(x[2..]) ==> EndsCr(x))
    ensures (x + y)[1..] == x[1..] + y && (EndsCr(x[1..]) ==> EndsCr(x)) && (x + y)[0] == x[0]
  {
    if |x| == 1 && y != [] {
      assert (x + y)[1] == y[0];
    }
  }

  /** Normalizing distributes over any cut that does not fall inside a CRLF pair. */
  lemma {:induction false} ToLfConcat(x: Text, y: Text)
    requires !(EndsCr(x) && StartsLf(y))
    ensures ToLf(x + y) == ToLf(x) + ToLf(y)
  {
    if x == [] {
      assert x + y == y;
    } else {
      PairStays(x, y);
      var n := if StartsPair(x) then 2 else 1;
      ToLfConcat(x[n..], y);
      Assoc([if x[0] == '\r' then '\n' else x[0]], ToLf(x[n..]), ToLf(y));
    }
  }

  function DetectLineEnding(s: Text): LineEnding {
    match (FindFrom(s, "\r\n", 0), FindFrom(s, "\n", 0))
    case (Some(crlf), Some(lf)) => if crlf == (if lf > 0 then lf - 1 else 0) then CrLf else Lf
    case _ => Lf
  }

  /** The first newline of the text, if it has one, is preceded by CR. */
  ghost predicate FirstEndsInPair(s: Text) {
    exists i: nat :: IsFirstNewline(s, i) && InPair(s, i)
  }

  predicate IsFirstNewline(s: Text, i: nat) {
    i < |s| && s[i] == '\n' && forall j :: 0 <= j < i ==> s[j] != '\n'
  }

  predicate InPair(s: Text, i: nat)
    requires i < |s|
  {
    i > 0 && s[i - 1] == '\r'
  }

  /** A file counts as CRLF exactly when its first newline does. */
  lemma {:induction false} DetectsFirstEnding(s: Text)
    ensures DetectLineEnding(s).CrLf? <==> FirstEndsInPair(s)
  {
    var newline, pair := FindFrom(s, "\n", 0), FindFrom(s, "\r\n", 0);
    if newline.None? {
      forall i: nat | i < |s| ensures s[i] != '\n' {
        NewlineAt(s, i);
      }
    } else {
      var k := newline.value;
      NewlineAt(s, k);
      forall i: nat | i < k ensures s[i] != '\n' {
        NewlineAt(s, i);
      }
      assert IsFirstNewline(s, k);
      assert forall i: nat :: IsFirstNewline(s, i) ==> i == k;
      if InPair(s, k) {
        PairAt(s, k - 1);
      }
      if pair.Some? {
        PairAt(s, pair.value);
      }
    }
  }

  lemma {:induction false} NewlineAt(s: Text, i: nat)
    ensures At(s, "\n", i) <==> i < |s| && s[i] == '\n'
  {
    if i < |s| {
      assert s[i..i + 1][0] == s[i];
      assert s[i] == '\n' ==> s[i..i + 1] == "\n";
    }
  }

  lemma {:induction false} PairAt(s: Text, i: nat)
    ensures At(s, "\r\n", i) <==> i + 1 < |s| && s[i] == '\r' && s[i + 1] == '\n'
  {
    if i + 1 < |s| {
      assert s[i..i + 2][0] == s[i] && s[i..i + 2][1] == s[i + 1];
      assert s[i] == '\r' && s[i + 1] == '\n' ==> s[i..i + 2] == "\r\n";
    }
  }

  function ExpandLf(s: Text): Text {
    if s == [] then [] else (if s[0] == '\n' then "\r\n" else [s[0]]) + ExpandLf(s[1..])
  }

  function RestoreLineEndings(s: Text, ending: LineEnding): Text {
    if ending.CrLf? then ExpandLf(s) else s
  }

  /** Restoring endings is undone by normalizing, and never makes a text that ends in CR. */
  lemma {:induction false} RestoreRoundTrip(s: Text, ending: LineEnding)
    requires NoCr(s)
    ensures ToLf(RestoreLineEndings(s, ending)) == s
    ensures !EndsCr(RestoreLineEndings(s, ending))
    ensures ending.CrLf? ==> !StartsLf(RestoreLineEndings(s, ending))
  {
    if ending.Lf? {
      ToLfKeeps(s);
    } else if s != [] {
      RestoreRoundTrip(s[1..], ending);
      var head, rest := if s[0] == '\n' then "\r\n" else [s[0]], ExpandLf(s[1..]);
      assert ExpandLf(s) == head + rest;
      ToLfConcat(head, rest);
      assert head[1..] == (if s[0] == '\n' then "\n" else []);
      assert ToLf(head) == [s[0]];
      assert rest == [] ==> ExpandLf(s) == head;
    }
  }

  // ----- Diff scripts -----

  datatype Change = Equal(line: Text) | Delete(line: Text) | Insert(line: Text)

  function OldSide(script: seq<Change>): seq<Text> {
    if script == [] then [] else
      var rest := OldSide(script[..|script| - 1]);
      if script[|script| - 1].Insert? then rest else rest + [script[|script| - 1].line]
  }

  function NewSide(script: seq<Change>): seq<Text> {
    if script == [] then [] else
      var rest := NewSide(script[..|script| - 1]);
      if script[|script| - 1].Delete? then rest else rest + [script[|script| - 1].line]
  }

  /** Any line diff of the two texts, whatever algorithm found it. */
  predicate IsDiff(script: seq<Change>, before: Text, after: Text) {
    OldSide(script) == SplitLines(before) && NewSide(script) == SplitLines(after)
  }

  function SpliceLines(original: seq<Text>, script: seq<Change>, ending: LineEnding): Result<Text> {
    if script == [] then Ok([]) else
      var init := script[..|script| - 1];
      var out :- SpliceLines(original, init, ending);
      match script[|script| - 1]
      case Delete(_) => Ok(out)
      case Insert(line) => Ok(out + RestoreLineEndings(line, ending))
      case Equal(_) =>
        var index := |OldSide(init)|;
        if index < |original| then Ok(out + original[index]) else Err(DifferentLineCount)
  }

  /** Write the new content over the original text. */
  method SpliceUnchangedLines(original: Text, script: seq<Change>, ending: LineEnding) returns (r: Result<Text>)
    ensures r == SpliceLines(SplitLines(original), script, ending)
  {
    var lines := SplitWithEndings(original);
    var oldLine := 0;
    var output: Text := [];
    for k := 0 to |script|
      invariant oldLine == |OldSide(script[..k])|
      invariant SpliceLines(lines, script[..k], ending) == Ok(output)
    {
      assert script[..k + 1][..k] == script[..k];
      match script[k] {
        case Equal(_) =>
          if oldLine >= |lines| {
            SpliceFails(lines, script, ending, k + 1);
            return Err(DifferentLineCount);
          }
          output := output + lines[oldLine];
          oldLine := oldLine + 1;
        case Delete(_) => oldLine := oldLine + 1;
        case Insert(line) => output := output + RestoreLineEndings(line, ending);
      }
    }
    assert script[..|script|] == script;
    return Ok(output);
  }

  lemma {:induction false} SpliceFails(lines: seq<Text>, script: seq<Change>, ending: LineEnding, k: nat)
    requires k <= |script| && SpliceLines(lines, script[..k], ending).Err?
    ensures SpliceLines(lines, script, ending) == SpliceLines(lines, script[..k], ending)
    decreases |script| - k
  {
    if k == |script| {
      assert script[..k] == script;
    } else {
      assert script[..k + 1][..k] == script[..k];
      SpliceFails(lines, script, ending, k + 1);
    }
  }

  // ----- Line correspondence -----

  predicate BareCrAt(s: Text, i: nat)
    requires i < |s|
  {
    s[i] == '\r' && !(i + 1 < |s| && s[i + 1] == '\n')
  }

  /** No lone CR, except perhaps as the very last character. */
  predicate Clean(s: Text) {
    forall i :: 0 <= i < |s| - 1 ==> !BareCrAt(s, i)
  }

  function AllToLf(lines: seq<Text>): (r: seq<Text>)
    ensures |r| == |lines| && forall i :: 0 <= i < |lines| ==> r[i] == ToLf(lines[i])
  {
    seq(|lines|, i requires 0 <= i < |lines| => ToLf(lines[i]))
  }

  lemma {:induction false} CleanLineToLf(line: Text)
    requires IsLine(line) && Clean(line)
    ensures IsLine(ToLf(line)) && (EndsLine(line) ==> EndsLine(ToLf(line)))
  {
    if |line| > 1 && !(|line| == 2 && line[0] == '\r' && line[1] == '\n') {
      assert line[0] != '\r' by { assert !BareCrAt(line, 0); }
      assert Clean(line[1..]) by {
        forall i | 0 <= i < |line[1..]| - 1 ensures !BareCrAt(line[1..], i) {
          assert !BareCrAt(line, i + 1);
        }
      }
      CleanLineToLf(line[1..]);
    } else {
      assert |line| == 2 ==> line[2..] == [];
      assert |line| == 1 ==> line[1..] == [];
    }
  }

  lemma {:induction false} ConcatAllToLf(lines: seq<Text>)
    requires forall i :: 0 <= i < |lines| - 1 ==> EndsLine(lines[i])
    ensures ToLf(Concat(lines)) == Concat(AllToLf(lines))
  {
    if lines != [] {
      var rest := lines[1..];
      ConcatAllToLf(rest);
      assert AllToLf(lines)[1..] == AllToLf(rest);
      if rest == [] {
        assert lines[0] + Concat(rest) == lines[0];
        assert ToLf(lines[0]) + Concat(AllToLf(rest)) == ToLf(lines[0]);
      } else {
        ToLfConcat(lines[0], Concat(rest));
      }
    }
  }

  lemma {:induction false} CleanParts(s: Text, x: Text, y: Text)
    requires s == x + y && Clean(s) && (y != [] ==> EndsLine(x))
    ensures Clean(x) && Clean(y)
  {
    forall i | 0 <= i < |x| - 1 ensures !BareCrAt(x, i) {
      assert !BareCrAt(s, i);
    }
    forall i | 0 <= i < |y| - 1 ensures !BareCrAt(y, i) {
      assert !BareCrAt(s, |x| + i);
    }
  }

  lemma {:induction false} CleanLines(lines: seq<Text>)
    requires AreLines(lines) && Clean(Concat(lines))
    ensures forall i :: 0 <= i < |lines| ==> Clean(lines[i])
  {
    if lines != [] {
      if |lines| > 1 {
        SplitConcat(lines[1..]);
      }
      CleanParts(Concat(lines), lines[0], Concat(lines[1..]));
      CleanLines(lines[1..]);
      forall i | 0 <= i < |lines| ensures Clean(lines[i]) {
        assert i > 0 ==> lines[i] == lines[1..][i - 1];
      }
    }
  }

  /** In a clean text the lines of the normalized text are the original lines, each normalized. */
  lemma {:induction false} LinesCorrespond(s: Text)
    requires Clean(s)
    ensures SplitLines(ToLf(s)) == AllToLf(SplitLines(s))
  {
    var lines := SplitLines(s);
    SplitAreLines(s);
    ConcatSplit(s);
    CleanLines(lines);
    forall i | 0 <= i < |lines| ensures IsLine(AllToLf(lines)[i]) && (EndsLine(lines[i]) ==> EndsLine(AllToLf(lines)[i])) {
      CleanLineToLf(lines[i]);
    }
    ConcatAllToLf(lines);
    SplitConcat(AllToLf(lines));
  }

  // ----- Correctness for every diff -----

  /** Lone CRs can only be the very last character, and then only in a file of CRLF endings. */
  predicate Spliceable(original: Text) {
    Clean(original) && (EndsCr(original) ==> DetectLineEnding(original).CrLf?)
  }

  ghost predicate LinesNoCr(lines: seq<Text>) {
    forall i :: 0 <= i < |lines| ==> NoCr(lines[i])
  }

  lemma {:induction false} SplitNoCr(s: Text)
    requires NoCr(s)
    ensures LinesNoCr(SplitLines(s))
  {
    if s != [] {
      SplitNoCr(s[FirstLineLength(s)..]);
    }
  }

  /** Only the last line of a clean text can end in CR. */
  lemma {:induction false} OnlyLastEndsCr(original: Text, i: nat)
    requires i < |SplitLines(original)| && EndsCr(SplitLines(original)[i])
    ensures i == |SplitLines(original)| - 1 && EndsCr(original)
  {
    var lines := SplitLines(original);
    SplitAreLines(original);
    ConcatSplit(original);
    var n := |lines| - 1;
    assert lines == lines[..n] + [lines[n]];
    ConcatSnoc(lines[..n], lines[n]);
    assert original[|original| - 1] == lines[n][|lines[n]| - 1];
  }

  /** What the loop has written after `script`: the new lines so far, and no CR left open while old
      lines remain or a plain newline could follow. */
  ghost predicate Written(original: Text, script: seq<Change>, ending: LineEnding, out: Text) {
    && ToLf(out) == Concat(NewSide(script))
    && (EndsCr(out) ==> |OldSide(script)| >= |SplitLines(original)| && ending.CrLf?)
  }

  lemma {:induction false} WriteInsert(out: Text, line: Text, ending: LineEnding)
    requires NoCr(line) && (EndsCr(out) ==> ending.CrLf?)
    ensures ToLf(out + RestoreLineEndings(line, ending)) == ToLf(out) + line
    ensures line != [] ==> !EndsCr(out + RestoreLineEndings(line, ending))
  {
    RestoreRoundTrip(line, ending);
    ToLfConcat(out, RestoreLineEndings(line, ending));
    if line != [] {
      assert RestoreLineEndings(line, ending) != [];
    }
  }

  lemma {:induction false} WriteEqual(original: Text, out: Text, index: nat, ending: LineEnding)
    requires Clean(original) && (EndsCr(original) ==> ending.CrLf?) && index < |SplitLines(original)| && !EndsCr(out)
    ensures ToLf(out + SplitLines(original)[index]) == ToLf(out) + ToLf(SplitLines(original)[index])
    ensures EndsCr(out + SplitLines(original)[index]) ==> index + 1 == |SplitLines(original)| && ending.CrLf?
  {
    var line := SplitLines(original)[index];
    SplitAreLines(original);
    ToLfConcat(out, line);
    if EndsCr(out + line) {
      assert (out + line)[|out + line| - 1] == line[|line| - 1];
      OnlyLastEndsCr(original, index);
    }
  }

  lemma {:induction false} SpliceSoFar(original: Text, script: seq<Change>, ending: LineEnding)
    requires Clean(original) && (EndsCr(original) ==> ending.CrLf?)
    requires OldSide(script) <= SplitLines(ToLf(original)) && LinesNoCr(NewSide(script))
    requires forall k :: 0 <= k < |script| ==> script[k].line != []
    ensures var r := SpliceLines(SplitLines(original), script, ending);
      r.Ok? && Written(original, script, ending, r.value)
  {
    if script != [] {
      var init, last := script[..|script| - 1], script[|script| - 1];
      assert NewSide(init) <= NewSide(script) && OldSide(init) <= OldSide(script);
      SpliceSoFar(original, init, ending);
      LinesCorrespond(original);
      var out := SpliceLines(SplitLines(original), init, ending).value;
      var index := |OldSide(init)|;
      assert last.line != [];
      match last
      case Delete(_) =>
      case Insert(line) =>
        assert NewSide(script)[|NewSide(init)|] == line;
        WriteInsert(out, line, ending);
        ConcatSnoc(NewSide(init), line);
      case Equal(line) =>
        assert OldSide(script)[index] == line;
        WriteEqual(original, out, index, ending);
        ConcatSnoc(NewSide(init), line);
    }
  }

  lemma {:induction false} ScriptLines(script: seq<Change>, before: Text, after: Text)
    requires IsDiff(script, before, after)
    ensures forall k :: 0 <= k < |script| ==> script[k].line != []
  {
    SplitAreLines(before);
    SplitAreLines(after);
    forall k | 0 <= k < |script| ensures script[k].line != [] {
      SideHolds(script, k);
    }
  }

  lemma {:induction false} SideHolds(script: seq<Change>, k: nat)
    requires k < |script|
    ensures script[k].line in OldSide(script) || script[k].line in NewSide(script)
  {
    if k < |script| - 1 {
      SideHolds(script[..|script| - 1], k);
    }
  }

  ghost predicate Splices(original: Text, after: Text, script: seq<Change>) {
    var r := SpliceLines(SplitLines(original), script, DetectLineEnding(original));
    r.Ok? && ToLf(r.value) == after
  }

  /** For every diff of a spliceable text, the splice succeeds and normalizes to the new content. */
  lemma {:induction false} SpliceIsCorrect(original: Text, after: Text, script: seq<Change>)
    requires Spliceable(original) && NoCr(after) && IsDiff(script, ToLf(original), after)
    ensures Splices(original, after, script)
  {
    SplitNoCr(after);
    ScriptLines(script, ToLf(original), after);
    SpliceSoFar(original, script, DetectLineEnding(original));
    ConcatSplit(after);
  }

  /** What one change puts into the file: an unchanged line the very characters of the original line
      it stands for, an inserted line its text with the ending of the file, a deleted line nothing. */
  ghost predicate PutsLine(original: seq<Text>, script: seq<Change>, k: nat, ending: LineEnding, written: Text)
    requires k < |script|
  {
    var index := |OldSide(script[..k])|;
    match script[k]
    case Equal(line) => index < |original| && written == original[index] && ToLf(written) == line
    case Delete(line) => index < |original| && ToLf(original[index]) == line && written == []
    case Insert(line) => written == RestoreLineEndings(line, ending) && ToLf(written) == line
  }

  lemma {:induction false} PutsEarlier(original: seq<Text>, script: seq<Change>, k: nat, ending: LineEnding, written: Text)
    requires k < |script| - 1
    ensures PutsLine(original, script, k, ending, written)
        <==> PutsLine(original, script[..|script| - 1], k, ending, written)
  {
    assert script[..|script| - 1][..k] == script[..k];
  }

  lemma {:induction false} LinesSoFar(original: seq<Text>, script: seq<Change>, ending: LineEnding)
    returns (written: seq<Text>)
    requires OldSide(script) <= AllToLf(original) && LinesNoCr(NewSide(script))
    ensures |written| == |script| && SpliceLines(original, script, ending) == Ok(Concat(written))
    ensures forall k :: 0 <= k < |script| ==> PutsLine(original, script, k, ending, written[k])
  {
    if script == [] {
      written := [];
    } else {
      var init, last := script[..|script| - 1], script[|script| - 1];
      LastLine(original, script, ending);
      var before := LinesSoFar(original, init, ending);
      var index := |OldSide(init)|;
      var line := match last
        case Equal(_) => original[index]
        case Delete(_) => []
        case Insert(line) => RestoreLineEndings(line, ending);
      written := before + [line];
      ConcatSnoc(before, line);
      assert Concat(before) + [] == Concat(before);
      forall k | 0 <= k < |script| ensures PutsLine(original, script, k, ending, written[k]) {
        if k < |init| {
          PutsEarlier(original, script, k, ending, written[k]);
        }
      }
    }
  }

  lemma {:induction false} LastLine(original: seq<Text>, script: seq<Change>, ending: LineEnding)
    requires script != [] && OldSide(script) <= AllToLf(original) && LinesNoCr(NewSide(script))
    ensures var index, last := |OldSide(script[..|script| - 1])|, script[|script| - 1];
      && (!last.Insert? ==> index < |original| && ToLf(original[index]) == last.line)
      && (last.Insert? ==> ToLf(RestoreLineEndings(last.line, ending)) == last.line)
    ensures OldSide(script[..|script| - 1]) <= AllToLf(original) && LinesNoCr(NewSide(script[..|script| - 1]))
  {
    var last := script[|script| - 1];
    var news, before := NewSide(script), NewSide(script[..|script| - 1]);
    forall i | 0 <= i < |before| ensures NoCr(before[i]) {
      assert news[i] == before[i];
    }
    if !last.Delete? {
      assert news[|news| - 1] == last.line;
    }
    if last.Insert? {
      RestoreRoundTrip(last.line, ending);
    } else {
      var olds := OldSide(script);
      assert olds[|olds| - 1] == last.line;
    }
  }

  /** Line by line, for every diff of a text whose lines correspond: the file written is what its
      changes put, one after another, and the diff uses up the original lines exactly. So every line
      the diff keeps is in the file with its original characters. */
  lemma {:induction false} SpliceKeepsLines(original: Text, after: Text, script: seq<Change>) returns (written: seq<Text>)
    requires Clean(original) && NoCr(after) && IsDiff(script, ToLf(original), after)
    ensures |written| == |script|
    ensures SpliceLines(SplitLines(original), script, DetectLineEnding(original)) == Ok(Concat(written))
    ensures forall k :: 0 <= k < |script| ==>
              PutsLine(SplitLines(original), script, k, DetectLineEnding(original), written[k])
    ensures |OldSide(script)| == |SplitLines(original)|
  {
    LinesCorrespond(original);
    SplitNoCr(after);
    written := LinesSoFar(SplitLines(original), script, DetectLineEnding(original));
  }

  // ----- The endings of the written file -----

  /** Every newline is part of a CRLF. */
  predicate AllPairs(s: Text) {
    forall i :: 0 <= i < |s| && s[i] == '\n' ==> InPair(s, i)
  }

  predicate HasNewline(s: Text) {
    exists i :: 0 <= i < |s| && s[i] == '\n'
  }

  lemma {:induction false} FirstNewline(s: Text, i: nat) returns (k: nat)
    requires i < |s| && s[i] == '\n'
    ensures k <= i && IsFirstNewline(s, k)
  {
    k := 0;
    while s[k] != '\n'
      invariant k <= i && forall j :: 0 <= j < k ==> s[j] != '\n'
      decreases i - k
    {
      k := k + 1;
    }
  }

  lemma {:induction false} PairsAreDetected(s: Text)
    ensures AllPairs(s) && HasNewline(s) ==> DetectLineEnding(s).CrLf?
    ensures NoCr(s) ==> DetectLineEnding(s).Lf?
  {
    DetectsFirstEnding(s);
    if AllPairs(s) && HasNewline(s) {
      var i :| 0 <= i < |s| && s[i] == '\n';
      var k := FirstNewline(s, i);
    }
  }

  lemma {:induction false} PairsJoin(a: Text, b: Text)
    requires AllPairs(a) && AllPairs(b)
    ensures AllPairs(a + b)
  {
    var s := a + b;
    forall i | 0 <= i < |s| && s[i] == '\n' ensures InPair(s, i) {
      if i < |a| {
        assert InPair(a, i);
      } else {
        assert b[i - |a|] == '\n' && InPair(b, i - |a|);
      }
    }
  }

  lemma {:induction false} LinesArePairs(lines: seq<Text>)
    requires AreLines(lines) && AllPairs(Concat(lines))
    ensures forall k :: 0 <= k < |lines| ==> AllPairs(lines[k])
  {
    if lines != [] {
      var first, rest, s := lines[0], Concat(lines[1..]), Concat(lines);
      assert s == first + rest && AreLines(lines[1..]);
      assert forall i :: 0 <= i < |first| ==> first[i] == s[i];
      forall i | 0 <= i < |rest| && rest[i] == '\n' ensures InPair(rest, i) {
        assert s[|first| + i] == '\n' && InPair(s, |first| + i);
        assert EndsLine(first) && s[|first| - 1] == '\n';
      }
      assert forall i :: 0 <= i < |first| && first[i] == '\n' ==> InPair(s, i) && InPair(first, i);
      LinesArePairs(lines[1..]);
    }
  }

  lemma {:induction false} ExpandedIsPairs(s: Text)
    requires NoCr(s)
    ensures AllPairs(ExpandLf(s))
  {
    if s != [] {
      ExpandedIsPairs(s[1..]);
      PairsJoin(if s[0] == '\n' then "\r\n" else [s[0]], ExpandLf(s[1..]));
    }
  }

  ghost predicate InsertsNoCr(script: seq<Change>) {
    forall k :: 0 <= k < |script| && script[k].Insert? ==> NoCr(script[k].line)
  }

  /** What a splice writes has the endings of the file: all CRLF, or no CR at all. */
  lemma {:induction false} SpliceKeepsEndings(lines: seq<Text>, script: seq<Change>, ending: LineEnding)
    requires InsertsNoCr(script) && SpliceLines(lines, script, ending).Ok?
    ensures ending.CrLf? && (forall k :: 0 <= k < |lines| ==> AllPairs(lines[k])) ==>
              AllPairs(SpliceLines(lines, script, ending).value)
    ensures ending.Lf? && LinesNoCr(lines) ==> NoCr(SpliceLines(lines, script, ending).value)
  {
    if script != [] {
      var init, last := script[..|script| - 1], script[|script| - 1];
      SpliceKeepsEndings(lines, init, ending);
      var before := SpliceLines(lines, init, ending).value;
      if last.Insert? {
        ExpandedIsPairs(last.line);
        if ending.CrLf? && forall k :: 0 <= k < |lines| ==> AllPairs(lines[k]) {
          PairsJoin(before, ExpandLf(last.line));
        }
      } else if last.Equal? && ending.CrLf? && forall k :: 0 <= k < |lines| ==> AllPairs(lines[k]) {
        PairsJoin(before, lines[|OldSide(init)|]);
      }
    }
  }

  /** For every diff whose new lines hold no CR: a file whose newlines, of which it has some, are all
      CRLF is written with CRLF only, and a file without CR is written without. */
  lemma {:induction false} WrittenEndings(original: Text, script: seq<Change>)
    requires InsertsNoCr(script)
    requires SpliceLines(SplitLines(original), script, DetectLineEnding(original)).Ok?
    ensures var written := SpliceLines(SplitLines(original), script, DetectLineEnding(original)).value;
      && (HasNewline(original) && AllPairs(original) ==> AllPairs(written))
      && (NoCr(original) ==> NoCr(written))
  {
    PairsAreDetected(original);
    SplitAreLines(original);
    ConcatSplit(original);
    SpliceKeepsEndings(SplitLines(original), script, DetectLineEnding(original));
    if AllPairs(original) {
      LinesArePairs(SplitLines(original));
    }
    if NoCr(original) {
      SplitNoCr(original);
    }
  }

  // ----- The condition is exact -----

  /** Correct for every new content other than the old one, and every diff to it. */
  ghost predicate SpliceAlwaysCorrect(original: Text) {
    forall after, script {:trigger Splices(original, after, script)} ::
      NoCr(after) && after != ToLf(original) && IsDiff(script, ToLf(original), after) ==> Splices(original, after, script)
  }

  function AllEqual(lines: seq<Text>): seq<Change> {
    if lines == [] then [] else AllEqual(lines[..|lines| - 1]) + [Equal(lines[|lines| - 1])]
  }

  lemma {:induction false} SidesSnoc(script: seq<Change>, c: Change)
    ensures OldSide(script + [c]) == if c.Insert? then OldSide(script) else OldSide(script) + [c.line]
    ensures NewSide(script + [c]) == if c.Delete? then NewSide(script) else NewSide(script) + [c.line]
  {
    assert (script + [c])[..|script|] == script;
  }

  lemma {:induction false} SpliceSnoc(original: seq<Text>, script: seq<Change>, c: Change, ending: LineEnding)
    requires SpliceLines(original, script, ending).Ok?
    ensures var out := SpliceLines(original, script, ending).value;
      SpliceLines(original, script + [c], ending) ==
        match c
        case Delete(_) => Ok(out)
        case Insert(line) => Ok(out + RestoreLineEndings(line, ending))
        case Equal(_) =>
          if |OldSide(script)| < |original| then Ok(out + original[|OldSide(script)|]) else Err(DifferentLineCount)
  {
    assert (script + [c])[..|script|] == script;
  }

  lemma {:induction false} SidesOfEqual(head: seq<Change>, lines: seq<Text>)
    ensures OldSide(head + AllEqual(lines)) == OldSide(head) + lines
    ensures NewSide(head + AllEqual(lines)) == NewSide(head) + lines
  {
    if lines == [] {
      assert head + AllEqual(lines) == head;
    } else {
      var init, last := lines[..|lines| - 1], lines[|lines| - 1];
      SidesOfEqual(head, init);
      SidesSnoc(head + AllEqual(init), Equal(last));
      Assoc(head, AllEqual(init), [Equal(last)]);
      Assoc(OldSide(head), init, [last]);
      Assoc(NewSide(head), init, [last]);
      assert lines == init + [last];
    }
  }

  lemma {:induction false} ExtraNewlines(s: Text)
    ensures Newlines(ToLf(s)) >= Newlines(s) + if EndsCr(s) then 1 else 0
    ensures !Clean(s) ==> Newlines(ToLf(s)) > Newlines(s) + if EndsCr(s) then 1 else 0
  {
    if s != [] {
      var n := if StartsPair(s) then 2 else 1;
      var rest := s[n..];
      ExtraNewlines(rest);
      assert ToLf(s)[1..] == ToLf(rest);
      assert Newlines(s) == Newlines(s[..n]) + Newlines(rest) by {
        NewlinesConcat(s[..n], rest);
        assert s == s[..n] + rest;
      }
      assert Newlines(s[..n]) == if s[n - 1] == '\n' then 1 else 0 by {
        assert s[..n][1..] == s[1..n];
        assert n == 2 ==> s[1..n] == ['\n'] && ['\n'][1..] == [];
      }
      CleanRest(s, n);
    }
  }

  lemma {:induction false} CleanRest(s: Text, n: nat)
    requires s != [] && n == if StartsPair(s) then 2 else 1
    ensures !Clean(s) ==> !Clean(s[n..]) || (s[0] == '\r' && n == 1 && |s| > 1)
    ensures s[n..] != [] ==> (EndsCr(s[n..]) <==> EndsCr(s))
    ensures s[n..] == [] ==> (EndsCr(s) <==> s[0] == '\r' && n == 1)
  {
    if !Clean(s) {
      var i :| 0 <= i < |s| - 1 && BareCrAt(s, i);
      if i >= n {
        assert BareCrAt(s[n..], i - n);
      }
    }
  }

  lemma {:induction false} LastOfToLf(s: Text)
    requires s != []
    ensures ToLf(s) != [] && (EndsLine(ToLf(s)) <==> EndsLine(s) || EndsCr(s))
  {
    var n := |s| - 1;
    assert s == s[..n] + [s[n]];
    if n > 0 && s[n - 1] == '\r' && s[n] == '\n' {
      assert s == s[..n - 1] + "\r\n";
      ToLfConcat(s[..n - 1], "\r\n");
      assert "\r\n"[2..] == [] && ToLf("\r\n") == "\n";
    } else {
      ToLfConcat(s[..n], [s[n]]);
      assert [s[n]][1..] == [];
    }
  }

  /** A lone CR inside the text gives the normalized text more lines than the original has. */
  lemma {:induction false} UncleanHasMoreLines(s: Text)
    requires !Clean(s)
    ensures |SplitLines(s)| < |SplitLines(ToLf(s))|
  {
    ExtraNewlines(s);
    LineCount(s);
    LineCount(ToLf(s));
    LastOfToLf(s);
  }

  /** Insert a line in front, keep the rest. */
  lemma {:induction false} PrependDiff(before: Text)
    requires NoCr(before)
    ensures NoCr("x\n" + before) && "x\n" + before != before
    ensures IsDiff([Insert("x\n")] + AllEqual(SplitLines(before)), before, "x\n" + before)
  {
    var head := [Insert("x\n")];
    assert head[..0] == [] && OldSide(head) == [] && NewSide(head) == ["x\n"];
    SidesOfEqual(head, SplitLines(before));
    OneLine("x\n");
    SplitBoundary("x\n", before);
    assert |"x\n" + before| != |before|;
  }

  /** With more lines to keep than the original has, the splice reports a different line count. */
  lemma {:induction false} TooManyEqual(original: seq<Text>, head: seq<Change>, lines: seq<Text>, ending: LineEnding)
    requires |original| < |lines| && OldSide(head) == []
    ensures SpliceLines(original, head + AllEqual(lines), ending).Err?
  {
    var init, last := lines[..|lines| - 1], lines[|lines| - 1];
    Assoc(head, AllEqual(init), [Equal(last)]);
    SidesOfEqual(head, init);
    var script := head + AllEqual(init);
    if SpliceLines(original, script, ending).Ok? {
      SpliceSnoc(original, script, Equal(last), ending);
    } else {
      assert (script + [Equal(last)])[..|script|] == script;
    }
  }

  lemma {:induction false} UncleanFails(original: Text)
    requires !Clean(original)
    ensures !SpliceAlwaysCorrect(original)
  {
    var before := ToLf(original);
    var script := [Insert("x\n")] + AllEqual(SplitLines(before));
    UncleanHasMoreLines(original);
    ToLfHasNoCr(original);
    PrependDiff(before);
    assert [Insert("x\n")][..0] == [] && OldSide([Insert("x\n")]) == [];
    TooManyEqual(SplitLines(original), [Insert("x\n")], SplitLines(before), DetectLineEnding(original));
    assert !Splices(original, "x\n" + before, script);
  }

  lemma {:induction false} SpliceEqualOnly(original: seq<Text>, lines: seq<Text>, ending: LineEnding)
    requires |lines| <= |original|
    ensures SpliceLines(original, AllEqual(lines), ending) == Ok(Concat(original[..|lines|]))
    ensures OldSide(AllEqual(lines)) == lines && NewSide(AllEqual(lines)) == lines
  {
    SidesOfEqual([], lines);
    assert [] + AllEqual(lines) == AllEqual(lines) && [] + lines == lines;
    if lines != [] {
      SpliceEqualOnly(original, lines[..|lines| - 1], ending);
      SpliceOneEqual(original, lines, ending);
    }
  }

  lemma {:induction false} SpliceOneEqual(original: seq<Text>, lines: seq<Text>, ending: LineEnding)
    requires lines != [] && |lines| <= |original|
    requires var init := lines[..|lines| - 1];
      && SpliceLines(original, AllEqual(init), ending) == Ok(Concat(original[..|init|]))
      && OldSide(AllEqual(init)) == init
    ensures SpliceLines(original, AllEqual(lines), ending) == Ok(Concat(original[..|lines|]))
  {
    var n := |lines| - 1;
    var init, last := AllEqual(lines[..n]), Equal(lines[n]);
    SpliceSnoc(original, init, last, ending);
    ConcatSnoc(original[..n], original[n]);
    assert original[..n + 1] == original[..n] + [original[n]];
    assert lines == lines[..n] + [lines[n]];
    assert AllEqual(lines) == init + [last];
  }

  /** Append an empty line to a text that ends in a lone CR: the written newline closes the pair. */
  lemma {:induction false} OpenCrFails(original: Text)
    requires Clean(original) && EndsCr(original) && DetectLineEnding(original).Lf?
    ensures !SpliceAlwaysCorrect(original)
  {
    var before := ToLf(original);
    var lines := SplitLines(before);
    var script := AllEqual(lines) + [Insert("\n")];
    LinesCorrespond(original);
    SpliceWhole(original, lines);
    AppendDiff(original);
    SpliceSnoc(SplitLines(original), AllEqual(lines), Insert("\n"), Lf);
    ClosesPair(original);
    assert !Splices(original, before + "\n", script);
  }

  lemma {:induction false} SpliceWhole(original: Text, lines: seq<Text>)
    requires |lines| == |SplitLines(original)|
    ensures SpliceLines(SplitLines(original), AllEqual(lines), Lf) == Ok(original)
  {
    SpliceEqualOnly(SplitLines(original), lines, Lf);
    assert SplitLines(original)[..|lines|] == SplitLines(original);
    ConcatSplit(original);
  }

  lemma {:induction false} AppendDiff(original: Text)
    requires EndsCr(original)
    ensures var before := ToLf(original);
      NoCr(before + "\n") && before + "\n" != before
      && IsDiff(AllEqual(SplitLines(before)) + [Insert("\n")], before, before + "\n")
  {
    var before := ToLf(original);
    LastOfToLf(original);
    ToLfHasNoCr(original);
    OneLine("\n");
    SplitBoundary(before, "\n");
    SidesOfEqual([], SplitLines(before));
    assert [] + AllEqual(SplitLines(before)) == AllEqual(SplitLines(before));
    SidesSnoc(AllEqual(SplitLines(before)), Insert("\n"));
    assert |before + "\n"| != |before|;
  }

  lemma {:induction false} ClosesPair(s: Text)
    requires EndsCr(s)
    ensures ToLf(s + "\n") == ToLf(s)
  {
    var x := s[..|s| - 1];
    assert s == x + "\r" && s + "\n" == x + "\r\n";
    ToLfConcat(x, "\r");
    ToLfConcat(x, "\r\n");
    assert "\r"[1..] == [] && "\r\n"[2..] == [];
  }

  /** Splicing is correct for every change to a text exactly when the text is spliceable. */
  lemma {:induction false} SpliceConditionIsExact(original: Text)
    ensures SpliceAlwaysCorrect(original) <==> Spliceable(original)
  {
    if Spliceable(original) {
      forall after, script {:trigger Splices(original, after, script)} |
        NoCr(after) && after != ToLf(original) && IsDiff(script, ToLf(original), after)
        ensures Splices(original, after, script)
      {
        SpliceIsCorrect(original, after, script);
      }
    } else if Clean(original) {
      OpenCrFails(original);
    } else {
      UncleanFails(original);
    }
  }
}

/** Head truncation by whole lines. Elements of a text stand for its bytes here. */
module TruncateHead {
  import opened Wrappers
  import opened Lines

  datatype TruncatedBy = ByLines | ByBytes

  datatype Truncation = Truncation(
    content: Text, truncated: bool, reason: Option<TruncatedBy>, totalLines: nat, totalBytes: nat,
    outputLines: nat, outputBytes: nat, firstLineExceeds: bool)

  predicate EndsWithNewline(s: Text) {
    s != [] && s[|s| - 1] == '\n'
  }

  /** Lines as terminators count them: a final newline opens no further line. */
  function TerminatedLines(s: Text): seq<Text> {
    var parts := Split(s);
    if s == [] then [] else if EndsWithNewline(s) then parts[..|parts| - 1] else parts
  }

  function JoinAll(parts: seq<Text>): Text {
    if parts == [] then [] else Join(parts)
  }

  /** How many lines fit, counting up from `k`. */
  function Fitting(lines: seq<Text>, k: nat, maxLines: nat, maxBytes: nat): (r: nat)
    requires k <= |lines|
    ensures k <= r <= |lines|
    decreases |lines| - k
  {
    if k < |lines| && k < maxLines && |JoinAll(lines[..k + 1])| <= maxBytes
    then Fitting(lines, k + 1, maxLines, maxBytes) else k
  }

  function Truncate(content: Text, maxLines: nat, maxBytes: nat): Truncation {
    var lines := TerminatedLines(content);
    if |lines| <= maxLines && |content| <= maxBytes then
      Truncation(content, false, None, |lines|, |content|, |lines|, |content|, false)
    else if content != [] && |Split(content)[0]| > maxBytes then
      Truncation([], true, Some(ByBytes), |lines|, |content|, 0, 0, true)
    else
      var k := Fitting(lines, 0, maxLines, maxBytes);
      var out := JoinAll(lines[..k]);
      Truncation(out, true, Some(if k < |lines| && k < maxLines then ByBytes else ByLines),
                 |lines|, |content|, k, |out|, false)
  }

  lemma {:induction false} JoinAllSnoc(parts: seq<Text>, x: Text)
    ensures JoinAll(parts + [x]) == if parts == [] then x else JoinAll(parts) + "\n" + x
  {
    if parts == [] {
      assert parts + [x] == [x];
    } else if |parts| == 1 {
      assert (parts + [x])[1..] == [x] && Join([x]) == x;
    } else {
      JoinAllSnoc(parts[1..], x);
      assert (parts + [x])[1..] == parts[1..] + [x];
      Assoc(parts[0] + "\n", Join(parts[1..]) + "\n", x);
      Assoc(parts[0] + "\n", Join(parts[1..]), "\n");
    }
  }

  lemma {:induction false} FittingBound(lines: seq<Text>, k: nat, maxLines: nat, maxBytes: nat)
    requires k <= |lines| && k <= maxLines && |JoinAll(lines[..k])| <= maxBytes
    ensures var r := Fitting(lines, k, maxLines, maxBytes);
      && r <= maxLines && |JoinAll(lines[..r])| <= maxBytes
      && (r < |lines| && r < maxLines ==> |JoinAll(lines[..r + 1])| > maxBytes)
    decreases |lines| - k
  {
    if k < |lines| && k < maxLines && |JoinAll(lines[..k + 1])| <= maxBytes {
      FittingBound(lines, k + 1, maxLines, maxBytes);
    }
  }

  /** The output is the longest run of whole leading lines within both limits. */
  lemma {:induction false} TruncationIsMaximal(content: Text, maxLines: nat, maxBytes: nat)
    requires Truncate(content, maxLines, maxBytes).truncated
    ensures var t, lines := Truncate(content, maxLines, maxBytes), TerminatedLines(content);
      && t.outputLines <= |lines| && t.outputLines <= maxLines && t.content == JoinAll(lines[..t.outputLines])
      && |t.content| == t.outputBytes <= maxBytes
      && (t.outputLines < |lines| && t.outputLines < maxLines ==> |JoinAll(lines[..t.outputLines + 1])| > maxBytes)
  {
    var lines := TerminatedLines(content);
    FittingBound(lines, 0, maxLines, maxBytes);
    if content != [] && |Split(content)[0]| > maxBytes && lines != [] {
      FirstTerminated(content);
      assert lines[..1] == [lines[0]];
    }
  }

  /** What a truncation is, without saying how it is found: the whole text when both limits allow it;
      or else the longest run of whole leading lines within both, unless not even the first fits. */
  ghost predicate IsTruncation(content: Text, maxLines: nat, maxBytes: nat, t: Truncation) {
    var lines := TerminatedLines(content);
    && (t.truncated <==> |lines| > maxLines || |content| > maxBytes)
    && t.totalLines == |lines| && t.totalBytes == |content| && t.outputBytes == |t.content|
    && (!t.truncated ==> t.content == content && t.outputLines == |lines| && t.reason == None)
    && (t.firstLineExceeds <==> t.truncated && |Split(content)[0]| > maxBytes)
    && (t.firstLineExceeds ==> t.content == [] && t.outputLines == 0 && t.reason == Some(ByBytes))
    && (t.truncated && !t.firstLineExceeds ==>
          && t.outputLines <= |lines| && t.outputLines <= maxLines
          && t.content == JoinAll(lines[..t.outputLines]) && |t.content| <= maxBytes
          && (t.outputLines < |lines| && t.outputLines < maxLines ==> |JoinAll(lines[..t.outputLines + 1])| > maxBytes)
          && t.reason == Some(if t.outputLines < |lines| && t.outputLines < maxLines then ByBytes else ByLines))
  }

  lemma {:induction false} TruncationExactly(content: Text, maxLines: nat, maxBytes: nat)
    ensures IsTruncation(content, maxLines, maxBytes, Truncate(content, maxLines, maxBytes))
  {
    if Truncate(content, maxLines, maxBytes).truncated {
      TruncationIsMaximal(content, maxLines, maxBytes);
    }
  }

  lemma {:induction false} FirstTerminated(s: Text)
    requires s != []
    ensures TerminatedLines(s) != [] && TerminatedLines(s)[0] == Split(s)[0]
  {
    if EndsWithNewline(s) {
      NewlineMakesTwo(s, |s| - 1);
    }
  }

  lemma {:induction false} NewlineMakesTwo(s: Text, i: nat)
    requires i < |s| && s[i] == '\n'
    ensures |Split(s)| >= 2
  {
    if s[0] != '\n' {
      NewlineMakesTwo(s[1..], i - 1);
    }
  }

  lemma {:induction false} OneMoreLine(lines: seq<Text>, k: nat)
    requires k < |lines|
    ensures JoinAll(lines[..k + 1]) == if k == 0 then lines[k] else JoinAll(lines[..k]) + "\n" + lines[k]
  {
    assert lines[..k + 1] == lines[..k] + [lines[k]];
    JoinAllSnoc(lines[..k], lines[k]);
  }

  method TruncateByLines(content: Text, maxLines: nat, maxBytes: nat) returns (t: Truncation)
    ensures t == Truncate(content, maxLines, maxBytes)
    ensures IsTruncation(content, maxLines, maxBytes, t)
  {
    TruncationExactly(content, maxLines, maxBytes);
    var lines := TerminatedLines(content);
    if |lines| <= maxLines && |content| <= maxBytes {
      return Truncation(content, false, None, |lines|, |content|, |lines|, |content|, false);
    }
    if content != [] && |Split(content)[0]| > maxBytes {
      return Truncation([], true, Some(ByBytes), |lines|, |content|, 0, 0, true);
    }
    PrefixesGrow(lines);
    var output, outputLines, reason := TakeLines(lines, maxLines, maxBytes, Prefixes(lines));
    forall k | 0 < k <= outputLines ensures Fits(lines, k, maxLines, maxBytes) {
      assert Prefixes(lines)(k) == JoinAll(lines[..k]);
    }
    StopIsFitting(lines, 0, outputLines, maxLines, maxBytes);
    t := Truncation(output, true, Some(reason), |lines|, |content|, outputLines, |output|, false);
  }

  /** `n` is where whole lines stop fitting, given what each number of lines joins to. */
  ghost predicate StopsAt(n: nat, total: nat, maxLines: nat, maxBytes: nat, prefix: nat -> Text) {
    && n <= total
    && (forall k :: 0 < k <= n ==> k <= maxLines && |prefix(k)| <= maxBytes)
    && (n < total && n < maxLines ==> |prefix(n + 1)| > maxBytes)
  }

  predicate Fits(lines: seq<Text>, k: nat, maxLines: nat, maxBytes: nat) {
    k <= |lines| && k <= maxLines && |JoinAll(lines[..k])| <= maxBytes
  }

  lemma {:induction false} StopIsFitting(lines: seq<Text>, k: nat, n: nat, maxLines: nat, maxBytes: nat)
    requires k <= n <= |lines|
    requires forall j :: k < j <= n ==> Fits(lines, j, maxLines, maxBytes)
    requires n < |lines| ==> !Fits(lines, n + 1, maxLines, maxBytes)
    ensures Fitting(lines, k, maxLines, maxBytes) == n
    decreases n - k
  {
    if k < n {
      assert Fits(lines, k + 1, maxLines, maxBytes);
      StopIsFitting(lines, k + 1, n, maxLines, maxBytes);
    }
  }

  /** The first lines joined, by their number. */
  function Prefixes(lines: seq<Text>): nat -> Text {
    (k: nat) => if k <= |lines| then JoinAll(lines[..k]) else []
  }

  ghost predicate GrowsByLine(lines: seq<Text>, prefix: nat -> Text) {
    && prefix(0) == []
    && forall k {:trigger lines[k]} :: 0 <= k < |lines| ==>
         prefix(k + 1) == prefix(k) + (if k > 0 then "\n" else "") + lines[k]
  }

  lemma {:induction false} PrefixesGrow(lines: seq<Text>)
    ensures GrowsByLine(lines, Prefixes(lines))
  {
    assert lines[..0] == [];
    forall k | 0 <= k < |lines|
      ensures Prefixes(lines)(k + 1) == Prefixes(lines)(k) + (if k > 0 then "\n" else "") + lines[k]
    {
      OneMoreLine(lines, k);
      assert k == 0 ==> [] + "" + lines[k] == lines[k];
    }
  }

  /** Take whole lines while both limits allow, and say which limit ended it. */
  method TakeLines(lines: seq<Text>, maxLines: nat, maxBytes: nat, ghost prefix: nat -> Text)
    returns (output: Text, outputLines: nat, reason: TruncatedBy)
    requires GrowsByLine(lines, prefix)
    ensures StopsAt(outputLines, |lines|, maxLines, maxBytes, prefix) && output == prefix(outputLines)
    ensures reason == if outputLines < |lines| && outputLines < maxLines then ByBytes else ByLines
  {
    output, outputLines, reason := [], 0, ByLines;
    while outputLines < |lines| && outputLines < maxLines
      invariant outputLines <= |lines| && output == prefix(outputLines) && reason == ByLines
      invariant forall k :: 0 < k <= outputLines ==> k <= maxLines && |prefix(k)| <= maxBytes
    {
      var line := lines[outputLines];
      var separator := if outputLines > 0 then "\n" else "";
      if |output| + |separator| + |line| > maxBytes {
        reason := ByBytes;
        break;
      }
      output := output + separator + line;
      outputLines := outputLines + 1;
    }
    if outputLines >= maxLines && |output| <= maxBytes {
      reason := ByLines;
    }
  }
}

/** Text as characters, and its two line conventions: lines that keep their endings, and the
    pieces between newlines. */
module Lines {

  type Text = seq<char>

  datatype Result<+T> = Ok(value: T) | Err(error: ToolError) {
    predicate IsFailure() { Err? }
    function PropagateFailure<U>(): Result<U> requires Err? { Err(error) }
    function Extract(): T requires Ok? { value }
  }

  datatype ToolError =
    | NoEdits
    | EmptyOldText(index: nat)
    | OldTextNotFound(index: nat)
    | OldTextNotUnique(index: nat, occurrences: nat)
    | EditsOverlap
    | NoChange
    | OutsideBase
    | DifferentLineCount
    | OffsetPastEnd(offset: int, total: nat)
    | FileTooLarge
    | NotFileOrDirectory
    | BadIgnoreRules
    | FsFailure

  lemma {:induction false} Assoc<T>(a: seq<T>, b: seq<T>, c: seq<T>)
    ensures a + (b + c) == a + b + c
  {
  }

  // ----- Lines with their endings -----

  /** The length of the first line, its newline included. */
  function FirstLineLength(s: Text): (n: nat)
    ensures n <= |s|
    ensures s != [] ==> n > 0
    ensures forall i :: 0 <= i < n - 1 ==> s[i] != '\n'
    ensures n > 0 && s[n - 1] != '\n' ==> n == |s|
  {
    if s == [] then 0 else if s[0] == '\n' then 1 else 1 + FirstLineLength(s[1..])
  }

  function SplitLines(s: Text): seq<Text> {
    if s == [] then [] else
      var n := FirstLineLength(s);
      [s[..n]] + SplitLines(s[n..])
  }

  function Concat(parts: seq<Text>): Text {
    if parts == [] then [] else parts[0] + Concat(parts[1..])
  }

  lemma {:induction false} ConcatSplit(s: Text)
    ensures Concat(SplitLines(s)) == s
  {
    if s != [] {
      var n := FirstLineLength(s);
      ConcatSplit(s[n..]);
      ConcatCons(s[..n], SplitLines(s[n..]));
      assert s == s[..n] + s[n..];
    }
  }

  lemma {:induction false} ConcatCons(x: Text, rest: seq<Text>)
    ensures Concat([x] + rest) == x + Concat(rest)
  {
    assert ([x] + rest)[0] == x && ([x] + rest)[1..] == rest;
  }

  lemma {:induction false} ConcatAppend(a: seq<Text>, b: seq<Text>)
    ensures Concat(a + b) == Concat(a) + Concat(b)
  {
    if a == [] {
      assert a + b == b;
    } else {
      ConcatAppend(a[1..], b);
      assert (a + b)[0] == a[0] && (a + b)[1..] == a[1..] + b;
      Assoc(a[0], Concat(a[1..]), Concat(b));
    }
  }

  lemma {:induction false} ConcatSnoc(a: seq<Text>, x: Text)
    ensures Concat(a + [x]) == Concat(a) + x
  {
    ConcatAppend(a, [x]);
    assert [x][1..] == [];
    assert Concat([x]) == x;
  }

  /** A line: non-empty, and a newline can only be its last character. */
  predicate IsLine(line: Text) {
    line != [] && forall i :: 0 <= i < |line| - 1 ==> line[i] != '\n'
  }

  predicate EndsLine(line: Text) {
    line != [] && line[|line| - 1] == '\n'
  }

  /** Lines in a row: each is a line, and only the last may lack its newline. */
  ghost predicate AreLines(lines: seq<Text>) {
    && (forall i :: 0 <= i < |lines| ==> IsLine(lines[i]))
    && (forall i :: 0 <= i < |lines| - 1 ==> EndsLine(lines[i]))
  }

  lemma {:induction false} SplitAreLines(s: Text)
    ensures AreLines(SplitLines(s))
    ensures s != [] ==> SplitLines(s) != [] && (EndsLine(SplitLines(s)[|SplitLines(s)| - 1]) <==> EndsLine(s))
  {
    if s != [] {
      var n := FirstLineLength(s);
      SplitAreLines(s[n..]);
      var rest := SplitLines(s[n..]);
      LinesCons(s[..n], rest);
      assert SplitLines(s) == [s[..n]] + rest;
      if n == |s| {
        assert s[..n] == s && s[n..] == [] && rest == [];
      } else {
        assert s[n..][|s| - n - 1] == s[|s| - 1];
      }
    }
  }

  lemma {:induction false} LinesCons(line: Text, rest: seq<Text>)
    requires IsLine(line) && AreLines(rest) && (rest == [] || EndsLine(line))
    ensures AreLines([line] + rest)
  {
    var lines := [line] + rest;
    assert forall i :: 0 < i < |lines| ==> lines[i] == rest[i - 1];
  }

  /** Splitting is the inverse of concatenation on rows of lines. */
  lemma {:induction false} SplitConcat(lines: seq<Text>)
    requires AreLines(lines)
    ensures SplitLines(Concat(lines)) == lines
  {
    if lines != [] {
      var rest := lines[1..];
      assert AreLines(rest);
      SplitConcat(rest);
      var s := Concat(lines);
      FirstLineOf(lines[0], Concat(rest));
      if rest == [] {
        assert s == lines[0];
      }
      assert s[|lines[0]|..] == Concat(rest);
      assert s[..|lines[0]|] == lines[0];
    }
  }

  lemma {:induction false} FirstLineOf(line: Text, rest: Text)
    requires IsLine(line) && (EndsLine(line) || rest == [])
    ensures FirstLineLength(line + rest) == |line|
  {
    var s := line + rest;
    if line[0] == '\n' {
      assert |line| == 1;
    } else if |line| == 1 {
      assert s == line && s[1..] == [];
    } else {
      FirstLineOf(line[1..], rest);
      assert s[1..] == line[1..] + rest;
    }
  }

  // ----- Pieces between newlines -----

  function Split(s: Text): (parts: seq<Text>)
    ensures parts != []
  {
    if s == [] then [[]] else
      var rest := Split(s[1..]);
      if s[0] == '\n' then [[]] + rest else [[s[0]] + rest[0]] + rest[1..]
  }

  function Join(parts: seq<Text>): Text
    requires parts != []
  {
    if |parts| == 1 then parts[0] else parts[0] + "\n" + Join(parts[1..])
  }

  lemma {:induction false} JoinSplit(s: Text)
    ensures Join(Split(s)) == s
    ensures forall i, j :: 0 <= i < |Split(s)| && 0 <= j < |Split(s)[i]| ==> Split(s)[i][j] != '\n'
  {
    if s != [] {
      JoinSplit(s[1..]);
      var rest := Split(s[1..]);
      assert s == [s[0]] + s[1..];
      if s[0] == '\n' {
        assert Split(s)[1..] == rest;
      } else if |rest| > 1 {
        assert Split(s)[1..] == rest[1..];
      }
    }
  }
}

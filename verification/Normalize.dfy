/** Normalization for matching: typographic characters mapped to ASCII, then every line trimmed. */
module Normalize {
  import opened Lines

  /** The replacement table. Compatibility composition is not part of this model. */
  function MapChar(c: char): char {
    if '\U{2018}' <= c <= '\U{201b}' then '\''
    else if '\U{201c}' <= c <= '\U{201f}' then '"'
    else if '\U{2010}' <= c <= '\U{2015}' || c == '\U{2212}' then '-'
    else if c == '\U{00a0}' || '\U{2002}' <= c <= '\U{200a}' || c == '\U{202f}' || c == '\U{205f}' || c == '\U{3000}' then ' '
    else c
  }

  /** Unicode White_Space. */
  predicate IsSpace(c: char) {
    || '\U{0009}' <= c <= '\U{000d}' || c == ' ' || c == '\U{0085}' || c == '\U{00a0}' || c == '\U{1680}'
    || '\U{2000}' <= c <= '\U{200a}' || c == '\U{2028}' || c == '\U{2029}' || c == '\U{202f}' || c == '\U{205f}'
    || c == '\U{3000}'
  }

  const SINGLE_QUOTES := {'\U{2018}', '\U{2019}', '\U{201a}', '\U{201b}'}
  const DOUBLE_QUOTES := {'\U{201c}', '\U{201d}', '\U{201e}', '\U{201f}'}
  const DASHES := {'\U{2010}', '\U{2011}', '\U{2012}', '\U{2013}', '\U{2014}', '\U{2015}', '\U{2212}'}
  const BLANKS := {'\U{00a0}', '\U{2002}', '\U{2003}', '\U{2004}', '\U{2005}', '\U{2006}', '\U{2007}', '\U{2008}',
    '\U{2009}', '\U{200a}', '\U{202f}', '\U{205f}', '\U{3000}'}
  const OTHER_SPACES := {'\U{0009}', '\U{000a}', '\U{000b}', '\U{000c}', '\U{000d}', ' ', '\U{0085}', '\U{1680}',
    '\U{2000}', '\U{2001}', '\U{2028}', '\U{2029}'}

  /** The table, character by character: which are written as a quote, a double quote, a hyphen or a
      space, and that every other one stays. */
  lemma {:induction false} TableIsExact(c: char)
    ensures MapChar(c) == '\'' <==> c == '\'' || c in SINGLE_QUOTES
    ensures MapChar(c) == '"' <==> c == '"' || c in DOUBLE_QUOTES
    ensures MapChar(c) == '-' <==> c == '-' || c in DASHES
    ensures MapChar(c) == ' ' <==> c == ' ' || c in BLANKS
    ensures c !in SINGLE_QUOTES + DOUBLE_QUOTES + DASHES + BLANKS ==> MapChar(c) == c
    ensures IsSpace(c) <==> c in BLANKS || c in OTHER_SPACES
  {
  }


  function MapText(s: Text): (r: Text)
    ensures |r| == |s| && forall i :: 0 <= i < |s| ==> r[i] == MapChar(s[i])
  {
    seq(|s|, i requires 0 <= i < |s| => MapChar(s[i]))
  }

  function TrimEnd(s: Text): Text {
    if s == [] then [] else if IsSpace(s[|s| - 1]) then TrimEnd(s[..|s| - 1]) else s
  }

  function TrimAll(parts: seq<Text>): (r: seq<Text>)
    ensures |r| == |parts|
  {
    if parts == [] then [] else [TrimEnd(parts[0])] + TrimAll(parts[1..])
  }

  /** Map, split at newlines, trim each line's end, join. */
  function NormalizeForMatch(s: Text): Text {
    Join(TrimAll(Split(MapText(s))))
  }

  // ----- Trimming as one pass from the right -----

  /** The line that starts here is empty. */
  predicate AtLineEnd(s: Text) {
    s == [] || s[0] == '\n'
  }

  function Trimmed(s: Text): Text {
    if s == [] then [] else
      var rest := Trimmed(s[1..]);
      if s[0] != '\n' && IsSpace(s[0]) && AtLineEnd(rest) then rest else [s[0]] + rest
  }

  lemma {:induction false} TrimCons(c: char, s: Text)
    ensures TrimEnd([c] + s) == if TrimEnd(s) == [] && IsSpace(c) then [] else [c] + TrimEnd(s)
  {
    if s == [] {
      assert [c] + s == [c] && [c][..0] == [];
    } else if IsSpace(s[|s| - 1]) {
      TrimCons(c, s[..|s| - 1]);
      assert ([c] + s)[..|s|] == [c] + s[..|s| - 1];
    }
  }

  lemma {:induction false} TrimNoNewline(s: Text)
    requires forall i :: 0 <= i < |s| ==> s[i] != '\n'
    ensures forall i :: 0 <= i < |TrimEnd(s)| ==> TrimEnd(s)[i] != '\n'
  {
    if s != [] && IsSpace(s[|s| - 1]) {
      TrimNoNewline(s[..|s| - 1]);
    }
  }

  lemma {:induction false} JoinFirst(p: seq<Text>, q: seq<Text>, c: char)
    requires p != [] && q != [] && p[1..] == q[1..]
    requires forall i :: 0 <= i < |q[0]| ==> q[0][i] != '\n'
    ensures p[0] == [c] + q[0] ==> Join(p) == [c] + Join(q)
    ensures p[0] == q[0] ==> Join(p) == Join(q)
    ensures AtLineEnd(Join(q)) <==> q[0] == []
  {
    assert |p| == |q|;
  }

  lemma {:induction false} EmptyPieceFirst(parts: seq<Text>)
    requires parts != []
    ensures Join(TrimAll([[]] + parts)) == "\n" + Join(TrimAll(parts))
  {
    var longer := [[]] + parts;
    assert longer[1..] == parts && longer[0] == [];
    assert TrimAll(longer) == [[]] + TrimAll(parts);
    assert TrimAll(longer)[1..] == TrimAll(parts);
  }

  /** Trimming line by line is the single right-to-left pass. */
  lemma {:induction false} TrimLinesIsPass(s: Text)
    ensures Join(TrimAll(Split(s))) == Trimmed(s)
  {
    if s != [] {
      TrimLinesIsPass(s[1..]);
      if s[0] == '\n' {
        EmptyPieceFirst(Split(s[1..]));
      } else {
        FirstPieceGrows(s[0], s[1..]);
      }
    }
  }

  lemma {:induction false} FirstPieceGrows(c: char, s: Text)
    requires c != '\n' && Join(TrimAll(Split(s))) == Trimmed(s)
    ensures Join(TrimAll([[c] + Split(s)[0]] + Split(s)[1..]))
         == if IsSpace(c) && AtLineEnd(Trimmed(s)) then Trimmed(s) else [c] + Trimmed(s)
  {
    var parts := Split(s);
    JoinSplit(s);
    TrimCons(c, parts[0]);
    TrimNoNewline(parts[0]);
    var longer := [[c] + parts[0]] + parts[1..];
    assert longer[1..] == parts[1..];
    var q := TrimAll(parts);
    var p := TrimAll(longer);
    assert q == [TrimEnd(parts[0])] + TrimAll(parts[1..]) && p == [TrimEnd(longer[0])] + TrimAll(parts[1..]);
    assert p[1..] == TrimAll(parts[1..]) && q[1..] == TrimAll(parts[1..]);
    JoinFirst(p, q, c);
  }

  lemma {:induction false} PassConcat(x: Text, y: Text) returns (pad: Text)
    ensures Trimmed(x + y) == Trimmed(x) + pad + Trimmed(y)
  {
    if x == [] {
      assert x + y == y;
      pad := [];
    } else {
      var below := PassConcat(x[1..], y);
      assert (x + y)[0] == x[0] && (x + y)[1..] == x[1..] + y;
      pad := ConsConcat(x[0], Trimmed(x[1..]), below, Trimmed(y));
    }
  }

  /** One step of the pass. */
  function Cons(c: char, rest: Text): Text {
    if c != '\n' && IsSpace(c) && AtLineEnd(rest) then rest else [c] + rest
  }

  lemma {:induction false} ConsConcat(c: char, t: Text, below: Text, u: Text) returns (pad: Text)
    ensures Cons(c, t + below + u) == Cons(c, t) + pad + u
  {
    if t == [] && c != '\n' && IsSpace(c) && !AtLineEnd(below + u) {
      assert t + below + u == below + u && Cons(c, t) == [];
      pad := [c] + below;
      assert [] + pad + u == [c] + (below + u);
    } else {
      pad := below;
      if t == [] {
        assert t + below + u == below + u;
      } else {
        assert (t + below + u)[0] == t[0];
      }
      assert [c] + (t + below + u) == [c] + t + below + u;
    }
  }

  /** Normalizing a concatenation keeps both normal forms, in order, with at most padding between. */
  lemma {:induction false} NormalizeConcat(x: Text, y: Text) returns (pad: Text)
    ensures NormalizeForMatch(x + y) == NormalizeForMatch(x) + pad + NormalizeForMatch(y)
  {
    assert MapText(x + y) == MapText(x) + MapText(y);
    pad := PassConcat(MapText(x), MapText(y));
    TrimLinesIsPass(MapText(x + y));
    TrimLinesIsPass(MapText(x));
    TrimLinesIsPass(MapText(y));
  }

  // ----- Idempotence -----

  lemma {:induction false} PassIdempotent(s: Text)
    ensures Trimmed(Trimmed(s)) == Trimmed(s)
  {
    if s != [] {
      PassIdempotent(s[1..]);
      assert ([s[0]] + Trimmed(s[1..]))[1..] == Trimmed(s[1..]);
    }
  }

  lemma {:induction false} PassKeepsMapped(s: Text)
    requires forall i :: 0 <= i < |s| ==> MapChar(s[i]) == s[i]
    ensures forall i :: 0 <= i < |Trimmed(s)| ==> MapChar(Trimmed(s)[i]) == Trimmed(s)[i]
  {
    if s != [] {
      PassKeepsMapped(s[1..]);
    }
  }

  /** Normalization is idempotent. */
  lemma {:induction false} NormalizeIdempotent(s: Text)
    ensures NormalizeForMatch(NormalizeForMatch(s)) == NormalizeForMatch(s)
  {
    var mapped := MapText(s);
    TrimLinesIsPass(mapped);
    PassKeepsMapped(mapped);
    assert MapText(Trimmed(mapped)) == Trimmed(mapped);
    TrimLinesIsPass(Trimmed(mapped));
    PassIdempotent(mapped);
  }

  // ----- Line counts -----

  function Newlines(s: Text): nat {
    if s == [] then 0 else (if s[0] == '\n' then 1 else 0) + Newlines(s[1..])
  }

  lemma {:induction false} PassKeepsNewlines(s: Text)
    ensures Newlines(Trimmed(s)) == Newlines(s)
  {
    if s != [] {
      PassKeepsNewlines(s[1..]);
      assert ([s[0]] + Trimmed(s[1..]))[1..] == Trimmed(s[1..]);
    }
  }

  lemma {:induction false} MapKeepsNewlines(s: Text)
    ensures Newlines(MapText(s)) == Newlines(s)
  {
    if s != [] {
      MapKeepsNewlines(s[1..]);
      assert MapText(s)[1..] == MapText(s[1..]);
    }
  }

  lemma {:induction false} NewlinesConcat(x: Text, y: Text)
    ensures Newlines(x + y) == Newlines(x) + Newlines(y)
  {
    if x == [] {
      assert x + y == y;
    } else {
      NewlinesConcat(x[1..], y);
      assert (x + y)[1..] == x[1..] + y;
    }
  }

  lemma {:induction false} NoNewlines(s: Text)
    requires forall i :: 0 <= i < |s| ==> s[i] != '\n'
    ensures Newlines(s) == 0
  {
    if s != [] {
      NoNewlines(s[1..]);
    }
  }

  /** A text has one line per newline, plus one for a last line without one. */
  lemma {:induction false} LineCount(s: Text)
    ensures |SplitLines(s)| == Newlines(s) + if s != [] && !EndsLine(s) then 1 else 0
  {
    if s != [] {
      var n := FirstLineLength(s);
      LineCount(s[n..]);
      assert s == s[..n] + s[n..];
      NewlinesConcat(s[..n], s[n..]);
      LineNewlines(s[..n]);
      if n < |s| {
        assert s[n..][|s| - n - 1] == s[|s| - 1];
      }
    }
  }

  lemma {:induction false} LineNewlines(line: Text)
    requires IsLine(line)
    ensures Newlines(line) == if EndsLine(line) then 1 else 0
  {
    var n := |line| - 1;
    assert line == line[..n] + [line[n]];
    NewlinesConcat(line[..n], [line[n]]);
    NoNewlines(line[..n]);
    assert [line[n]][1..] == [];
  }

  /** Where the last line without a newline starts. */
  function TailStart(s: Text): (k: nat)
    ensures k <= |s|
    ensures forall i :: k <= i < |s| ==> s[i] != '\n'
    ensures k > 0 ==> s[k - 1] == '\n'
  {
    if s == [] || s[|s| - 1] == '\n' then |s| else TailStart(s[..|s| - 1])
  }

  function Tail(s: Text): Text {
    s[TailStart(s)..]
  }

  predicate AllSpace(s: Text) {
    forall i :: 0 <= i < |s| ==> IsSpace(s[i])
  }

  /** The text ends in a last line, without newline, that is nothing but space. */
  predicate BlankTail(s: Text) {
    Tail(s) != [] && AllSpace(Tail(s))
  }

  lemma {:induction false} PassOfSpace(s: Text)
    requires forall i :: 0 <= i < |s| ==> s[i] != '\n'
    ensures Trimmed(s) == [] <==> AllSpace(s)
    ensures Trimmed(s) != [] ==> !EndsLine(Trimmed(s))
  {
    if s != [] {
      PassOfSpace(s[1..]);
      if AllSpace(s) {
        assert AllSpace(s[1..]);
      } else if AllSpace(s[1..]) {
        assert forall i :: 1 <= i < |s| ==> s[i] == s[1..][i - 1];
      }
    }
  }

  lemma {:induction false} PassAfterNewline(x: Text, t: Text)
    requires forall i :: 0 <= i < |t| ==> t[i] != '\n'
    ensures Trimmed(x + ['\n'] + t) != []
    ensures EndsLine(Trimmed(x + ['\n'] + t)) <==> AllSpace(t)
  {
    var rest := ['\n'] + t;
    assert x + ['\n'] + t == x + rest && rest[1..] == t;
    var pad := PassConcat(x, rest);
    assert Trimmed(rest) == ['\n'] + Trimmed(t);
    PassOfSpace(t);
    var all := Trimmed(x) + pad + Trimmed(rest);
    assert all[|all| - 1] == Trimmed(rest)[|Trimmed(rest)| - 1];
  }

  /** After the pass the text ends in an unterminated line exactly when its own tail holds a non-space. */
  lemma {:induction false} PassEnd(s: Text)
    ensures Trimmed(s) != [] && !EndsLine(Trimmed(s)) <==> !AllSpace(Tail(s))
  {
    var k := TailStart(s);
    if k == 0 {
      assert s[0..] == s;
      PassOfSpace(s);
    } else {
      assert s == s[..k - 1] + ['\n'] + s[k..];
      PassAfterNewline(s[..k - 1], s[k..]);
    }
  }

  lemma {:induction false} MapKeepsTailStart(s: Text)
    ensures TailStart(MapText(s)) == TailStart(s)
  {
    if s != [] {
      MapKeepsTailStart(s[..|s| - 1]);
      assert MapText(s)[..|s| - 1] == MapText(s[..|s| - 1]);
    }
  }

  lemma {:induction false} MapKeepsTail(s: Text)
    ensures |Tail(MapText(s))| == |Tail(s)| && (AllSpace(Tail(MapText(s))) <==> AllSpace(Tail(s)))
  {
    MapKeepsTailStart(s);
    var t, u := Tail(s), Tail(MapText(s));
    forall i | 0 <= i < |t| ensures IsSpace(u[i]) <==> IsSpace(t[i]) {
      MapKeepsSpace(t[i]);
    }
  }

  lemma {:induction false} MapKeepsSpace(c: char)
    ensures IsSpace(MapChar(c)) <==> IsSpace(c)
  {
  }

  /** Normalizing keeps the number of lines exactly when the text does not end in a blank,
      unterminated last line; that line disappears. */
  lemma {:induction false} NormalizeLineCount(s: Text)
    ensures |SplitLines(NormalizeForMatch(s))| == |SplitLines(s)| <==> !BlankTail(s)
    ensures BlankTail(s) ==> |SplitLines(NormalizeForMatch(s))| == |SplitLines(s)| - 1
  {
    var mapped := MapText(s);
    TrimLinesIsPass(mapped);
    LineCount(s);
    LineCount(Trimmed(mapped));
    PassKeepsNewlines(mapped);
    MapKeepsNewlines(s);
    MapKeepsTail(s);
    PassEnd(mapped);
  }
}

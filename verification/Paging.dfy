/** Reading a file by pages: offsets, limits, automatic truncation, and the notices that say
    where to go on. */
module Paging {
  import opened Wrappers
  import opened Lines
  import opened TruncateHead

  const DEFAULT_MAX_LINES := 2000
  const DEFAULT_MAX_BYTES := 50 * 1024
  const MAX_FILE_BYTES := 8 * 1024 * 1024

  /** How a page ends: nothing follows, go on at an offset, or the line is too long to show. */
  datatype Notice = Complete | ContinueAt(offset: int) | LineTooLong(line: int)

  datatype Page = Page(text: Text, startLine: int, endLine: int, totalLines: nat, notice: Notice)

  function LineTotal(s: Text): nat {
    if s == [] then 1 else (if s[0] == '\n' then 1 else 0) + LineTotal(s[1..])
  }

  /** The byte behind the `i`-th newline, or the end of the text. */
  function LineStartByte(s: Text, i: nat): (k: nat)
    ensures k <= |s|
  {
    if i == 0 || s == [] then 0 else 1 + LineStartByte(s[1..], if s[0] == '\n' then i - 1 else i)
  }

  function Max(a: int, b: int): int { if a >= b then a else b }
  function Min(a: int, b: int): int { if a <= b then a else b }

  function LineRange(s: Text, startIndex: nat, endIndex: nat, total: nat): Text {
    var start := LineStartByte(s, startIndex);
    if endIndex <= startIndex then [] else
      var end := if endIndex >= total then |s| else Max(LineStartByte(s, endIndex) - 1, 0);
      s[start..Max(end, start)]
  }

  /** The first line to show, counted from 0. */
  function StartIndex(offset: Option<int>): nat {
    if offset.Some? && offset.value != 0 then Max(offset.value - 1, 0) else 0
  }

  /** The end of the selection for a limit, as given and clamped to the file. */
  function LimitEnd(start: nat, limit: int, total: nat): (r: (nat, int))
    requires start < total
    ensures start <= r.0 <= total
  {
    var numeric := Min(start + limit, total);
    var slice := if numeric < 0 then Max(total + numeric, 0) else numeric;
    (Max(Min(Max(slice, 0), total), start), numeric)
  }

  function ReadPage(bytes: Text, offset: Option<int>, limit: Option<int>): Result<Page> {
    if |bytes| > MAX_FILE_BYTES then Err(FileTooLarge) else
    var total := LineTotal(bytes);
    var start := StartIndex(offset);
    if start >= total then Err(OffsetPastEnd(if offset.Some? then offset.value else 1, total)) else
    var end := SelectionEnd(start, limit, total);
    var t := Truncate(LineRange(bytes, start, end, total), DEFAULT_MAX_LINES, DEFAULT_MAX_BYTES);
    Ok(PageOf(start, end, if limit.Some? then LimitEnd(start, limit.value, total).1 else total, total, t))
  }

  function SelectionEnd(start: nat, limit: Option<int>, total: nat): nat
    requires start < total
  {
    if limit.Some? then LimitEnd(start, limit.value, total).0 else total
  }

  /** The page for a selection that starts at `start`; `numeric` is where the caller's limit ended. */
  function PageOf(start: nat, end: nat, numeric: int, total: nat, t: Truncation): Page {
    if t.firstLineExceeds then Page([], start + 1, start, total, LineTooLong(start + 1))
    else if t.truncated then
      Page(t.content, start + 1, start + t.outputLines, total, ContinueAt(start + t.outputLines + 1))
    else Page(t.content, start + 1, end, total, if numeric < total then ContinueAt(numeric + 1) else Complete)
  }

  // ----- Lines of the file -----

  lemma {:induction false} TotalIsSplit(s: Text)
    ensures LineTotal(s) == |Split(s)|
  {
    if s != [] {
      TotalIsSplit(s[1..]);
    }
  }

  lemma {:induction false} StartCuts(s: Text, i: nat)
    requires i < |Split(s)|
    ensures s[LineStartByte(s, i)..] == Join(Split(s)[i..])
    ensures i > 0 ==> LineStartByte(s, i) > 0
  {
    if i == 0 {
      JoinSplit(s);
      assert Split(s)[0..] == Split(s);
    } else if s != [] {
      var rest := Split(s[1..]);
      if s[0] == '\n' {
        StartCuts(s[1..], i - 1);
        assert Split(s)[i..] == rest[i - 1..];
      } else {
        StartCuts(s[1..], i);
        assert Split(s)[i..] == rest[i..];
      }
      var k := LineStartByte(s, i);
      assert s[k..] == s[1..][k - 1..];
    }
  }

  lemma {:induction false} JoinAt(parts: seq<Text>, k: nat)
    requires 0 < k < |parts|
    ensures Join(parts) == Join(parts[..k]) + "\n" + Join(parts[k..])
    decreases k
  {
    if k == 1 {
      assert parts[..1] == [parts[0]];
    } else {
      JoinAt(parts[1..], k - 1);
      assert parts[1..][..k - 1] == parts[..k][1..] && parts[1..][k - 1..] == parts[k..];
      Assoc(parts[0] + "\n", Join(parts[..k][1..]) + "\n", Join(parts[k..]));
      Assoc(parts[0] + "\n", Join(parts[..k][1..]), "\n");
    }
  }

  lemma {:induction false} LastPart(s: Text, whole: Text, mid: Text, rest: Text, a: nat, b: nat)
    requires a <= |s| && b <= |s| && s[a..] == mid + "\n" + rest && s[b..] == rest
    ensures a <= b - 1 && s[a..b - 1] == mid
  {
    assert |s| - a == |mid| + 1 + |rest| && |s| - b == |rest|;
    assert b - 1 == a + |mid|;
    assert s[a..b - 1] == s[a..][..|mid|];
    assert (mid + "\n" + rest)[..|mid|] == mid;
  }

  /** A range of lines is those lines joined. */
  lemma {:induction false} RangeIsLines(s: Text, a: nat, b: nat)
    requires a < b <= |Split(s)|
    ensures LineRange(s, a, b, |Split(s)|) == Join(Split(s)[a..b])
  {
    var parts := Split(s);
    StartCuts(s, a);
    if b == |parts| {
      assert parts[a..b] == parts[a..];
    } else {
      RangeInside(s, a, b);
    }
  }

  lemma {:induction false} RangeInside(s: Text, a: nat, b: nat)
    requires a < b < |Split(s)| && s[LineStartByte(s, a)..] == Join(Split(s)[a..])
    ensures LineStartByte(s, a) <= LineStartByte(s, b) - 1
    ensures s[LineStartByte(s, a)..LineStartByte(s, b) - 1] == Join(Split(s)[a..b])
  {
    var parts := Split(s);
    StartCuts(s, b);
    JoinAt(parts[a..], b - a);
    assert parts[a..][..b - a] == parts[a..b] && parts[a..][b - a..] == parts[b..];
    LastPart(s, s, Join(parts[a..b]), Join(parts[b..]), LineStartByte(s, a), LineStartByte(s, b));
  }

  predicate Unbroken(line: Text) {
    forall j :: 0 <= j < |line| ==> line[j] != '\n'
  }

  predicate NoneBreaks(parts: seq<Text>) {
    forall i :: 0 <= i < |parts| ==> Unbroken(parts[i])
  }

  lemma {:induction false} SplitJoin(parts: seq<Text>)
    requires parts != [] && NoneBreaks(parts)
    ensures Split(Join(parts)) == parts
    decreases |parts|
  {
    if |parts| == 1 {
      SplitOne(parts[0]);
      assert parts == [parts[0]];
    } else {
      var rest := parts[1..];
      assert forall i :: 0 <= i < |rest| ==> rest[i] == parts[i + 1];
      SplitJoin(rest);
      SplitFirst(parts[0], Join(rest));
      assert Join(parts) == parts[0] + "\n" + Join(rest) && parts == [parts[0]] + rest;
    }
  }

  lemma {:induction false} SplitOne(s: Text)
    requires Unbroken(s)
    ensures Split(s) == [s]
  {
    if s != [] {
      SplitOne(s[1..]);
      assert [s[0]] + s[1..] == s && [s[1..]][1..] == [];
    }
  }

  lemma {:induction false} SplitFirst(line: Text, rest: Text)
    requires Unbroken(line)
    ensures Split(line + "\n" + rest) == [line] + Split(rest)
  {
    var s := line + "\n" + rest;
    if line == [] {
      assert s == ['\n'] + rest && s[1..] == rest;
    } else {
      SplitFirst(line[1..], rest);
      assert s[1..] == line[1..] + "\n" + rest && s[0] == line[0];
      var parts := [line[1..]] + Split(rest);
      assert parts[0] == line[1..] && parts[1..] == Split(rest) && [line[0]] + line[1..] == line;
    }
  }

  // ----- What a page shows -----

  /** A page that starts at line index `line`: the whole lines up to `endLine`, with the notice that
      belongs to where it stopped. */
  ghost predicate Shows(parts: seq<Text>, line: nat, page: Page) {
    && line < page.endLine <= |parts|
    && page.text == Join(parts[line..page.endLine])
    && |page.text| <= DEFAULT_MAX_BYTES
    && page.notice == if page.endLine == |parts| then Complete else ContinueAt(page.endLine + 1)
  }

  /** A page read at a line: if the line fits, whole lines from there; if not, it says so. */
  ghost predicate GoodPage(parts: seq<Text>, line: nat, page: Page)
    requires line < |parts|
  {
    && page.startLine == line + 1
    && (|parts[line]| > DEFAULT_MAX_BYTES ==> page.notice == LineTooLong(line + 1) && page.endLine == line)
    && (|parts[line]| <= DEFAULT_MAX_BYTES ==> Shows(parts, line, page))
  }

  lemma {:induction false} SelectedLines(parts: seq<Text>)
    requires parts != [] && NoneBreaks(parts)
    ensures Split(Join(parts)) == parts
    ensures TerminatedLines(Join(parts)) == if parts[|parts| - 1] == [] then parts[..|parts| - 1] else parts
  {
    SplitJoin(parts);
    LastCharacter(parts);
    if |parts| == 1 {
      assert parts[..0] == [];
    }
  }

  lemma {:induction false} LastCharacter(parts: seq<Text>)
    requires parts != [] && NoneBreaks(parts)
    ensures Join(parts) == [] ==> parts == [[]]
    ensures EndsWithNewline(Join(parts)) <==> |parts| > 1 && parts[|parts| - 1] == []
  {
    var n := |parts| - 1;
    if n > 0 {
      JoinAt(parts, n);
      assert parts[n..] == [parts[n]];
      var s := Join(parts[..n]) + "\n" + parts[n];
      if parts[n] == [] {
        assert s[|s| - 1] == '\n';
      } else {
        assert s[|s| - 1] == parts[n][|parts[n]| - 1];
      }
    } else {
      assert parts == [parts[0]];
    }
  }

  /** A cap stops after `n` lines: so many lines are all a page may have, or one more would be too long. */
  predicate Capped(parts: seq<Text>, n: nat) {
    n < |parts| && (n == DEFAULT_MAX_LINES || |Join(parts[..n + 1])| > DEFAULT_MAX_BYTES)
  }

  /** A truncated selection of lines: the first is too long, all of it, or a proper non-empty part. */
  ghost predicate ShowsPart(parts: seq<Text>, t: Truncation)
    requires parts != []
  {
    && (t.firstLineExceeds <==> |parts[0]| > DEFAULT_MAX_BYTES)
    && (!t.truncated ==> t.content == Join(parts) && |t.content| <= DEFAULT_MAX_BYTES)
    && (t.truncated && !t.firstLineExceeds ==>
          && 0 < t.outputLines < |parts| && t.content == Join(parts[..t.outputLines])
          && |t.content| <= DEFAULT_MAX_BYTES && Capped(parts, t.outputLines))
  }

  lemma {:induction false} TruncateSelection(parts: seq<Text>)
    requires parts != [] && NoneBreaks(parts)
    ensures ShowsPart(parts, Truncate(Join(parts), DEFAULT_MAX_LINES, DEFAULT_MAX_BYTES))
  {
    SelectedLines(parts);
    FirstIsPrefix(parts);
    LastCharacter(parts);
    TruncationExactly(Join(parts), DEFAULT_MAX_LINES, DEFAULT_MAX_BYTES);
    TruncatedPart(Join(parts), parts, Truncate(Join(parts), DEFAULT_MAX_LINES, DEFAULT_MAX_BYTES));
  }

  lemma {:induction false} TruncatedPart(s: Text, parts: seq<Text>, t: Truncation)
    requires parts != [] && s == Join(parts) && Split(s) == parts && |parts[0]| <= |s|
    requires EndsWithNewline(s) <==> |parts| > 1 && parts[|parts| - 1] == []
    requires s == [] ==> parts == [[]]
    requires IsTruncation(s, DEFAULT_MAX_LINES, DEFAULT_MAX_BYTES, t)
    ensures ShowsPart(parts, t)
  {
    if t.truncated && !t.firstLineExceeds {
      FirstTerminated(s);
      ProperPart(s, parts, TerminatedLines(s), t.outputLines);
    }
  }

  lemma {:induction false} ProperPart(s: Text, parts: seq<Text>, lines: seq<Text>, k: nat)
    requires parts != [] && s == Join(parts) && lines != [] && |parts[0]| <= DEFAULT_MAX_BYTES
    requires lines == parts || lines == parts[..|parts| - 1]
    requires k <= |lines| && k <= DEFAULT_MAX_LINES && |JoinAll(lines[..k])| <= DEFAULT_MAX_BYTES
    requires |lines| > DEFAULT_MAX_LINES || |s| > DEFAULT_MAX_BYTES
    requires k < |lines| && k < DEFAULT_MAX_LINES ==> |JoinAll(lines[..k + 1])| > DEFAULT_MAX_BYTES
    ensures 0 < k < |parts| && JoinAll(lines[..k]) == Join(parts[..k]) && Capped(parts, k)
  {
    assert lines[..1] == [parts[0]];
    assert parts[..|parts|] == parts;
    assert k > 0;
    assert lines[..k] == parts[..k];
    PartCapped(s, parts, lines, k);
  }

  lemma {:induction false} PartCapped(s: Text, parts: seq<Text>, lines: seq<Text>, k: nat)
    requires 0 < k < |parts| && s == Join(parts) && k <= |lines| && k <= DEFAULT_MAX_LINES
    requires lines == parts || lines == parts[..|parts| - 1]
    requires |lines| > DEFAULT_MAX_LINES || |s| > DEFAULT_MAX_BYTES
    requires k < |lines| && k < DEFAULT_MAX_LINES ==> |JoinAll(lines[..k + 1])| > DEFAULT_MAX_BYTES
    ensures Capped(parts, k)
  {
    if k < DEFAULT_MAX_LINES {
      if k < |lines| {
        assert lines[..k + 1] == parts[..k + 1];
      } else {
        assert parts[..k + 1] == parts;
      }
    }
  }

  lemma {:induction false} FirstIsPrefix(parts: seq<Text>)
    requires parts != []
    ensures |parts[0]| <= |Join(parts)|
  {
  }

  lemma {:induction false} PartsOfFile(bytes: Text, a: nat, b: nat)
    requires a < b <= |Split(bytes)|
    ensures var parts := Split(bytes)[a..b];
      parts != [] && NoneBreaks(parts)
  {
    JoinSplit(bytes);
    var whole := Split(bytes);
    forall i | 0 <= i < b - a ensures Unbroken(whole[a..b][i]) {
      assert whole[a..b][i] == whole[a + i];
    }
  }

  predicate PositiveLimit(limit: Option<int>) {
    limit.Some? ==> limit.value > 0
  }

  /** Where a page from `line` would end if no cap stopped it. */
  function WantedEnd(line: nat, limit: Option<int>, total: nat): int {
    if limit.None? || line + limit.value >= total then total else line + limit.value
  }

  /** A page goes no further than the limit, and stops sooner only for a cap: the line cap, or the
      byte cap on one more line. */
  predicate LimitKept(parts: seq<Text>, line: nat, limit: Option<int>, page: Page) {
    && line <= page.endLine <= WantedEnd(line, limit, |parts|) <= |parts|
    && (page.endLine < WantedEnd(line, limit, |parts|) ==>
          page.endLine - line == DEFAULT_MAX_LINES || |Join(parts[line..page.endLine + 1])| > DEFAULT_MAX_BYTES)
  }

  /** Reading at a line of the file shows whole lines from there and points at the first line not
      shown, unless that very line is longer than a page may be. */
  lemma {:induction false} PageShows(bytes: Text, line: nat, limit: Option<int>)
    requires |bytes| <= MAX_FILE_BYTES && line < |Split(bytes)| && PositiveLimit(limit)
    ensures var r := ReadPage(bytes, Some(line + 1), limit);
      && r.Ok? && r.value.totalLines == |Split(bytes)|
      && GoodPage(Split(bytes), line, r.value) && LimitKept(Split(bytes), line, limit, r.value)
  {
    var parts := Split(bytes);
    var t := SelectedPart(bytes, line, limit);
    SelectionPage(parts, line, WantedEnd(line, limit, |parts|), limit, t);
  }

  /** The page of a positive limit, in terms of the lines it wants. */
  lemma {:induction false} SelectedPart(bytes: Text, line: nat, limit: Option<int>) returns (t: Truncation)
    requires |bytes| <= MAX_FILE_BYTES && line < |Split(bytes)| && PositiveLimit(limit)
    ensures var total := |Split(bytes)|;
      var end := WantedEnd(line, limit, total);
      && line < end <= total && ShowsPart(Split(bytes)[line..end], t)
      && ReadPage(bytes, Some(line + 1), limit) == Ok(PageOf(line, end, end, total, t))
  {
    TotalIsSplit(bytes);
    var total := |Split(bytes)|;
    var end := SelectionEnd(line, limit, total);
    assert line < end <= total && end == WantedEnd(line, limit, total);
    RangeIsLines(bytes, line, end);
    PartsOfFile(bytes, line, end);
    TruncateSelection(Split(bytes)[line..end]);
    t := Truncate(LineRange(bytes, line, end, total), DEFAULT_MAX_LINES, DEFAULT_MAX_BYTES);
  }

  lemma {:induction false} SelectionPage(parts: seq<Text>, line: nat, end: nat, limit: Option<int>, t: Truncation)
    requires line < end <= |parts| && end == WantedEnd(line, limit, |parts|) && ShowsPart(parts[line..end], t)
    ensures GoodPage(parts, line, PageOf(line, end, end, |parts|, t))
    ensures LimitKept(parts, line, limit, PageOf(line, end, end, |parts|, t))
  {
    var chosen := parts[line..end];
    assert chosen[0] == parts[line] && parts[line..line + 1] == [parts[line]];
    if t.truncated && !t.firstLineExceeds {
      assert chosen[..t.outputLines] == parts[line..line + t.outputLines];
      assert chosen[..t.outputLines + 1] == parts[line..line + t.outputLines + 1];
    }
  }

  // ----- Paging through a file -----

  /** The first line from `line` on that is too long to show; the line count if there is none. */
  function FirstTooLong(parts: seq<Text>, line: nat): (j: nat)
    requires line <= |parts|
    ensures line <= j <= |parts|
    ensures forall i :: line <= i < j ==> |parts[i]| <= DEFAULT_MAX_BYTES
    ensures j < |parts| ==> |parts[j]| > DEFAULT_MAX_BYTES
    decreases |parts| - line
  {
    if line == |parts| || |parts[line]| > DEFAULT_MAX_BYTES then line else FirstTooLong(parts, line + 1)
  }

  ghost predicate GoodReader(parts: seq<Text>, read: nat -> Page) {
    forall line {:trigger read(line)} :: 0 <= line < |parts| ==> GoodPage(parts, line, read(line))
  }

  /** Read at a line and follow the notices until one does not say to continue. */
  ghost function Follow(parts: seq<Text>, read: nat -> Page, line: nat): (pages: seq<Page>)
    requires GoodReader(parts, read) && line < |parts|
    ensures pages != []
    decreases |parts| - line
  {
    var page := read(line);
    if page.notice.ContinueAt? then [page] + Follow(parts, read, page.notice.offset - 1) else [page]
  }

  /** The texts of the pages that show lines. */
  function Texts(pages: seq<Page>): seq<Text> {
    if pages == [] then [] else
      (if pages[0].notice.LineTooLong? then [] else [pages[0].text]) + Texts(pages[1..])
  }

  /** Consecutive pages: each starts where the one before stopped. */
  ghost predicate Consecutive(pages: seq<Page>, line: nat) {
    pages != [] ==> pages[0].startLine == line + 1 && pages[0].endLine >= line && Consecutive(pages[1..], pages[0].endLine)
  }

  lemma {:induction false} JoinPage(parts: seq<Text>, a: nat, m: nat, b: nat, rest: seq<Text>)
    requires a < m < b <= |parts| && rest != [] && Join(rest) == Join(parts[m..b])
    ensures Join([Join(parts[a..m])] + rest) == Join(parts[a..b])
  {
    JoinAt(parts[a..b], m - a);
    assert parts[a..b][..m - a] == parts[a..m] && parts[a..b][m - a..] == parts[m..b];
    assert ([Join(parts[a..m])] + rest)[1..] == rest;
  }

  /** The pages from `line` on show every line once and in order up to the first one too long to
      show, and stop there or at the end of the file. */
  ghost predicate Exact(parts: seq<Text>, line: nat, pages: seq<Page>)
    requires line <= |parts|
  {
    var j := FirstTooLong(parts, line);
    && pages != []
    && Consecutive(pages, line)
    && JoinAll(Texts(pages)) == JoinAll(parts[line..j])
    && (Texts(pages) == [] <==> j == line)
    && pages[|pages| - 1].notice == (if j == |parts| then Complete else LineTooLong(j + 1))
  }

  lemma {:induction false} StuckPage(parts: seq<Text>, line: nat, page: Page)
    requires line < |parts| && |parts[line]| > DEFAULT_MAX_BYTES
    requires page.notice == LineTooLong(line + 1) && page.startLine == line + 1 && page.endLine == line
    ensures Exact(parts, line, [page])
  {
    assert [page][1..] == [] && parts[line..line] == [];
  }

  lemma {:induction false} LastPage(parts: seq<Text>, line: nat, page: Page)
    requires line < |parts| == page.endLine && Shows(parts, line, page) && page.startLine == line + 1
    ensures Exact(parts, line, [page])
  {
    ShownLinesFit(parts, line, |parts|);
    assert [page][1..] == [] && Texts([page]) == [page.text];
  }

  lemma {:induction false} MorePages(parts: seq<Text>, line: nat, page: Page, rest: seq<Page>)
    requires line < page.endLine < |parts| && Shows(parts, line, page) && page.startLine == line + 1
    requires Exact(parts, page.endLine, rest)
    ensures Exact(parts, line, [page] + rest)
  {
    ShownLinesFit(parts, line, page.endLine);
    PageThenRest(parts, line, FirstTooLong(parts, line), page, rest);
  }

  /** Following the notices from any line terminates, never asks past the end, and is exact. */
  lemma {:induction false} FollowIsExact(parts: seq<Text>, read: nat -> Page, line: nat)
    requires GoodReader(parts, read) && line < |parts|
    ensures Exact(parts, line, Follow(parts, read, line))
    decreases |parts| - line
  {
    var page := read(line);
    if |parts[line]| > DEFAULT_MAX_BYTES {
      StuckPage(parts, line, page);
    } else if page.endLine == |parts| {
      LastPage(parts, line, page);
    } else {
      FollowIsExact(parts, read, page.endLine);
      MorePages(parts, line, page, Follow(parts, read, page.endLine));
    }
  }

  lemma {:induction false} PageThenRest(parts: seq<Text>, line: nat, j: nat, page: Page, rest: seq<Page>)
    requires line < page.endLine <= j <= |parts| && Shows(parts, line, page) && page.startLine == line + 1
    requires rest != [] && Consecutive(rest, page.endLine) && JoinAll(Texts(rest)) == JoinAll(parts[page.endLine..j])
    requires Texts(rest) == [] <==> j == page.endLine
    ensures Consecutive([page] + rest, line) && Texts([page] + rest) != []
    ensures JoinAll(Texts([page] + rest)) == JoinAll(parts[line..j])
  {
    var pages, m := [page] + rest, page.endLine;
    assert pages[0] == page && pages[1..] == rest;
    assert Texts(pages) == [page.text] + Texts(rest);
    if j > m {
      JoinPage(parts, line, m, j, Texts(rest));
    } else {
      assert [page.text] + [] == [page.text];
    }
  }

  lemma {:induction false} ShownLinesFit(parts: seq<Text>, a: nat, b: nat)
    requires a < b <= |parts| && |Join(parts[a..b])| <= DEFAULT_MAX_BYTES
    ensures FirstTooLong(parts, a) >= b && FirstTooLong(parts, a) == FirstTooLong(parts, b)
    decreases b - a
  {
    var chosen := parts[a..b];
    FirstIsPrefix(chosen);
    assert chosen[0] == parts[a];
    if a + 1 < b {
      assert chosen[1..] == parts[a + 1..b];
      ShownLinesFit(parts, a + 1, b);
    }
  }

  predicate AllFit(parts: seq<Text>) {
    forall i :: 0 <= i < |parts| ==> |parts[i]| <= DEFAULT_MAX_BYTES
  }

  /** The last page says that nothing follows. */
  ghost predicate Done(pages: seq<Page>) {
    pages != [] && pages[|pages| - 1].notice == Complete
  }

  lemma {:induction false} ExactFromStart(parts: seq<Text>, pages: seq<Page>)
    requires parts != [] && Exact(parts, 0, pages)
    ensures AllFit(parts) <==> pages[|pages| - 1].notice == Complete
    ensures AllFit(parts) ==> Texts(pages) != [] && Join(Texts(pages)) == Join(parts)
  {
    assert parts[0..|parts|] == parts;
    assert FirstTooLong(parts, 0) == |parts| <==> AllFit(parts);
  }

  /** The tool as a reader: pages of one file under one limit, by line index. */
  function Reader(bytes: Text, limit: Option<int>): nat -> Page {
    (line: nat) =>
      match ReadPage(bytes, Some(line + 1), limit)
      case Ok(page) => page
      case Err(_) => Page([], line + 1, line, 0, Complete)
  }

  /** Every offset a notice names is served, and shows whole lines or reports a line too long. */
  lemma {:induction false} ToolIsGoodReader(bytes: Text, limit: Option<int>)
    requires |bytes| <= MAX_FILE_BYTES && PositiveLimit(limit)
    ensures GoodReader(Split(bytes), Reader(bytes, limit))
    ensures Serves(Split(bytes), Tool(bytes, limit), Reader(bytes, limit))
  {
    var parts, serve, read := Split(bytes), Tool(bytes, limit), Reader(bytes, limit);
    forall line: nat | line < |parts| ensures GoodPage(parts, line, read(line)) && serve(line + 1) == Ok(read(line)) {
      ToolServesLine(bytes, limit, line);
    }
  }

  lemma {:induction false} ToolServesLine(bytes: Text, limit: Option<int>, line: nat)
    requires |bytes| <= MAX_FILE_BYTES && PositiveLimit(limit) && line < |Split(bytes)|
    ensures Tool(bytes, limit)(line + 1) == Ok(Reader(bytes, limit)(line))
    ensures GoodPage(Split(bytes), line, Reader(bytes, limit)(line))
  {
    PageShows(bytes, line, limit);
  }

  /** Starting at the first line, with no limit or any fixed positive one, the pages reach the end
      exactly when every line fits, and then, joined by newlines, they are the file. */
  lemma {:induction false} PagesAreTheFile(bytes: Text, limit: Option<int>)
    requires |bytes| <= MAX_FILE_BYTES && PositiveLimit(limit)
    ensures GoodReader(Split(bytes), Reader(bytes, limit))
    ensures var pages := Follow(Split(bytes), Reader(bytes, limit), 0);
      && Exact(Split(bytes), 0, pages)
      && (AllFit(Split(bytes)) <==> Done(pages))
      && (AllFit(Split(bytes)) ==> Texts(pages) != [] && Join(Texts(pages)) == bytes)
  {
    ToolIsGoodReader(bytes, limit);
    FollowFromStart(Split(bytes), Reader(bytes, limit));
    JoinSplit(bytes);
  }

  lemma {:induction false} FollowFromStart(parts: seq<Text>, read: nat -> Page)
    requires parts != [] && GoodReader(parts, read)
    ensures var pages := Follow(parts, read, 0);
      && Exact(parts, 0, pages)
      && (AllFit(parts) <==> Done(pages))
      && (AllFit(parts) ==> Texts(pages) != [] && Join(Texts(pages)) == Join(parts))
  {
    FollowIsExact(parts, read, 0);
    ExactFromStart(parts, Follow(parts, read, 0));
  }

  // ----- Every limit -----

  /** Pages as a caller gets them who starts at `offset` and follows each notice. */
  ghost predicate IsTrail(serve: int -> Result<Page>, offset: int, pages: seq<Page>)
    decreases |pages|
  {
    && pages != [] && serve(offset) == Ok(pages[0])
    && (|pages| > 1 ==> pages[0].notice.ContinueAt? && IsTrail(serve, pages[0].notice.offset, pages[1..]))
  }

  /** The tool on one file under one limit, by offset. */
  function Tool(bytes: Text, limit: Option<int>): int -> Result<Page> {
    (offset: int) => ReadPage(bytes, Some(offset), limit)
  }

  /** Some number of reads from the first line on ends with a page that nothing follows. */
  ghost predicate Finishes(bytes: Text, limit: Option<int>) {
    exists pages :: IsTrail(Tool(bytes, limit), 1, pages) && Done(pages)
  }

  /** Offsets are served by the reader, line by line. */
  ghost predicate Serves(parts: seq<Text>, serve: int -> Result<Page>, read: nat -> Page) {
    forall line: nat {:trigger read(line)} :: line < |parts| ==> serve(line + 1) == Ok(read(line))
  }

  lemma {:induction false} FollowIsTrail(parts: seq<Text>, serve: int -> Result<Page>, read: nat -> Page, line: nat)
    requires GoodReader(parts, read) && Serves(parts, serve, read) && line < |parts|
    ensures IsTrail(serve, line + 1, Follow(parts, read, line))
    decreases |parts| - line
  {
    var page, pages := read(line), Follow(parts, read, line);
    if page.notice.ContinueAt? {
      FollowIsTrail(parts, serve, read, page.notice.offset - 1);
      assert pages[1..] == Follow(parts, read, page.notice.offset - 1);
    }
  }

  /** Reads are answered alike every time, so a trail that ends is the one trail there is. */
  lemma {:induction false} TrailIsFollow(parts: seq<Text>, serve: int -> Result<Page>, read: nat -> Page, line: nat, pages: seq<Page>)
    requires GoodReader(parts, read) && Serves(parts, serve, read) && line < |parts|
    requires IsTrail(serve, line + 1, pages) && Done(pages)
    ensures pages == Follow(parts, read, line)
    decreases |pages|
  {
    assert serve(line + 1) == Ok(read(line)) && GoodPage(parts, line, read(line));
    if |pages| > 1 {
      TrailIsFollow(parts, serve, read, pages[0].notice.offset - 1, pages[1..]);
      assert pages == [pages[0]] + pages[1..];
    } else {
      assert pages == [pages[0]];
    }
  }

  /** Under a limit below one, no page at any offset says that nothing follows. */
  lemma {:induction false} NoPageCompletes(bytes: Text, offset: int, limit: int)
    requires limit <= 0 && ReadPage(bytes, Some(offset), Some(limit)).Ok?
    ensures ReadPage(bytes, Some(offset), Some(limit)).value.notice != Complete
  {
  }

  lemma {:induction false} LastIsServed(serve: int -> Result<Page>, offset: int, pages: seq<Page>) returns (last: int)
    requires IsTrail(serve, offset, pages)
    ensures serve(last) == Ok(pages[|pages| - 1])
    decreases |pages|
  {
    if |pages| > 1 {
      last := LastIsServed(serve, pages[0].notice.offset, pages[1..]);
    } else {
      last := offset;
    }
  }

  /** Over every file and every limit: reading on from the first line comes to an end if and only
      if the file is within the size limit, the limit is absent or positive, and every line fits
      a page; and the pages, joined by newlines, are then the file. */
  lemma {:induction false} FinishesExactly(bytes: Text, limit: Option<int>)
    ensures Finishes(bytes, limit) <==> |bytes| <= MAX_FILE_BYTES && PositiveLimit(limit) && AllFit(Split(bytes))
    ensures forall pages :: IsTrail(Tool(bytes, limit), 1, pages) && Done(pages) ==>
              Texts(pages) != [] && Join(Texts(pages)) == bytes
  {
    if |bytes| <= MAX_FILE_BYTES && PositiveLimit(limit) {
      ReadingOnFinishes(bytes, limit);
    } else {
      forall pages | IsTrail(Tool(bytes, limit), 1, pages) ensures !Done(pages) {
        var last := LastIsServed(Tool(bytes, limit), 1, pages);
        if |bytes| <= MAX_FILE_BYTES {
          NoPageCompletes(bytes, last, limit.value);
        }
      }
    }
  }

  lemma {:induction false} ReadingOnFinishes(bytes: Text, limit: Option<int>)
    requires |bytes| <= MAX_FILE_BYTES && PositiveLimit(limit)
    ensures Finishes(bytes, limit) <==> AllFit(Split(bytes))
    ensures forall pages :: IsTrail(Tool(bytes, limit), 1, pages) && Done(pages) ==>
              Texts(pages) != [] && Join(Texts(pages)) == bytes
  {
    ToolIsGoodReader(bytes, limit);
    TrailsFromStart(Split(bytes), Tool(bytes, limit), Reader(bytes, limit));
    JoinSplit(bytes);
  }

  lemma {:induction false} TrailsFromStart(parts: seq<Text>, serve: int -> Result<Page>, read: nat -> Page)
    requires parts != [] && GoodReader(parts, read) && Serves(parts, serve, read)
    ensures (exists pages :: IsTrail(serve, 1, pages) && Done(pages)) <==> AllFit(parts)
    ensures forall pages :: IsTrail(serve, 1, pages) && Done(pages) ==>
              Texts(pages) != [] && Join(Texts(pages)) == Join(parts)
  {
    FollowFromStart(parts, read);
    FollowIsTrail(parts, serve, read, 0);
    forall pages | IsTrail(serve, 1, pages) && Done(pages) ensures pages == Follow(parts, read, 0) {
      TrailIsFollow(parts, serve, read, 0, pages);
    }
  }

  /** How a limit below one fails: at a line it does not reach back over the start of the file from,
      the page is empty and points at itself, for limit zero, or at a line before it. */
  lemma {:induction false} LimitBelowOneGoesBack(bytes: Text, line: nat, limit: int)
    requires |bytes| <= MAX_FILE_BYTES && line < |Split(bytes)| && limit <= 0 <= line + limit
    ensures ReadPage(bytes, Some(line + 1), Some(limit))
         == Ok(Page([], line + 1, line, |Split(bytes)|, ContinueAt(line + limit + 1)))
  {
    TotalIsSplit(bytes);
  }

  /** A limit that reaches back over the start of the file counts from its end instead: the page goes
      up to so many lines before the end, unless a cap stops it sooner, and then points at an offset
      before the file. */
  lemma {:induction false} LimitCountsFromEnd(bytes: Text, line: nat, limit: int)
    requires |bytes| <= MAX_FILE_BYTES && line < |Split(bytes)| && line + limit < 0
    ensures var parts, end := Split(bytes), |Split(bytes)| + line + limit;
      var r := ReadPage(bytes, Some(line + 1), Some(limit));
      && r.Ok?
      && (end <= line ==> r.value == Page([], line + 1, line, |parts|, ContinueAt(line + limit + 1)))
      && (end > line ==> StopsShort(parts, line, end, line + limit + 1, r.value))
  {
    TotalIsSplit(bytes);
    var parts, end := Split(bytes), |Split(bytes)| + line + limit;
    if end > line {
      var t := BackPart(bytes, line, limit, end);
      ShortPage(parts, line, end, line + limit, t);
    }
  }

  lemma {:induction false} BackPart(bytes: Text, line: nat, limit: int, end: nat) returns (t: Truncation)
    requires |bytes| <= MAX_FILE_BYTES && line < end == |Split(bytes)| + line + limit && line + limit < 0
    ensures ShowsPart(Split(bytes)[line..end], t)
    ensures ReadPage(bytes, Some(line + 1), Some(limit)) == Ok(PageOf(line, end, line + limit, |Split(bytes)|, t))
  {
    TotalIsSplit(bytes);
    var total := |Split(bytes)|;
    assert LimitEnd(line, limit, total) == (end, line + limit);
    RangeIsLines(bytes, line, end);
    PartsOfFile(bytes, line, end);
    TruncateSelection(Split(bytes)[line..end]);
    t := Truncate(LineRange(bytes, line, end, total), DEFAULT_MAX_LINES, DEFAULT_MAX_BYTES);
  }

  /** A page of whole lines up to `end` that goes on at `next`, or one that a cap has stopped. */
  ghost predicate StopsShort(parts: seq<Text>, line: nat, end: nat, next: int, page: Page)
    requires line < end <= |parts|
  {
    && page.startLine == line + 1
    && (|parts[line]| > DEFAULT_MAX_BYTES ==> page.notice == LineTooLong(line + 1) && page.endLine == line)
    && (|parts[line]| <= DEFAULT_MAX_BYTES ==>
          && line < page.endLine <= end && page.text == Join(parts[line..page.endLine])
          && (page.endLine == end ==> page.notice == ContinueAt(next))
          && (page.endLine < end ==>
                && page.notice == ContinueAt(page.endLine + 1) && Capped(parts[line..end], page.endLine - line)))
  }

  lemma {:induction false} ShortPage(parts: seq<Text>, line: nat, end: nat, numeric: int, t: Truncation)
    requires line < end < |parts| && numeric < |parts| && ShowsPart(parts[line..end], t)
    ensures StopsShort(parts, line, end, numeric + 1, PageOf(line, end, numeric, |parts|, t))
  {
    var chosen := parts[line..end];
    assert chosen[0] == parts[line];
    if t.truncated && !t.firstLineExceeds {
      assert chosen[..t.outputLines] == parts[line..line + t.outputLines];
    }
  }

  /** A negative limit at the first line of two: all but the last line is shown, over and over. */
  lemma {:induction false} NegativeLimitRepeats()
    ensures var page := Page("a", 1, 1, 2, ContinueAt(0));
      ReadPage("a\nb", Some(1), Some(-1)) == Ok(page) && ReadPage("a\nb", Some(0), Some(-1)) == Ok(page)
  {
    assert "a\nb"[1..] == "\nb" && "\nb"[1..] == "b" && "b"[1..] == "";
    assert LineTotal("b") == 1 && LineTotal("\nb") == 2 && LineTotal("a\nb") == 2;
    assert LineStartByte("\nb", 1) == 1 && LineStartByte("a\nb", 1) == 2;
    assert LineRange("a\nb", 0, 1, 2) == "a";
  }

  /** An offset outside the file is refused with the line count; every offset inside is served. */
  lemma {:induction false} OffsetsInside(bytes: Text, offset: Option<int>, limit: Option<int>)
    requires |bytes| <= MAX_FILE_BYTES
    ensures ReadPage(bytes, offset, limit).Ok? <==> offset.None? || offset.value <= |Split(bytes)|
    ensures ReadPage(bytes, offset, limit).Err? ==>
              offset.Some? && ReadPage(bytes, offset, limit).error == OffsetPastEnd(offset.value, |Split(bytes)|)
  {
    TotalIsSplit(bytes);
  }

  /** Which page a truncated selection becomes, by the branches of the tool. */
  method FinishPage(start: nat, end: nat, userEnd: Option<int>, total: nat, t: Truncation) returns (page: Page)
    ensures page == PageOf(start, end, if userEnd.Some? then userEnd.value else total, total, t)
  {
    var endLine: int := end;
    var text := t.content;
    var notice := Complete;
    if t.firstLineExceeds {
      text := [];
      endLine := start;
      notice := LineTooLong(start + 1);
    } else if t.truncated {
      endLine := start + t.outputLines;
      notice := ContinueAt(endLine + 1);
    } else if userEnd.Some? && userEnd.value < total {
      notice := ContinueAt(userEnd.value + 1);
    }
    page := Page(text, start + 1, endLine, total, notice);
  }

  /** The read as the tool runs it. */
  method Read(bytes: Text, offset: Option<int>, limit: Option<int>) returns (r: Result<Page>)
    ensures r == ReadPage(bytes, offset, limit)
    ensures r.Err? <==> |bytes| > MAX_FILE_BYTES || (offset.Some? && offset.value > |Split(bytes)|)
    ensures r.Ok? && PositiveLimit(limit) ==>
              var line := if offset.Some? && offset.value > 1 then offset.value - 1 else 0;
              && line < |Split(bytes)| == r.value.totalLines
              && GoodPage(Split(bytes), line, r.value) && LimitKept(Split(bytes), line, limit, r.value)
  {
    TotalIsSplit(bytes);
    var line := if offset.Some? && offset.value > 1 then offset.value - 1 else 0;
    if |bytes| <= MAX_FILE_BYTES && PositiveLimit(limit) && line < |Split(bytes)| {
      PageShows(bytes, line, limit);
      assert StartIndex(Some(line + 1)) == StartIndex(offset);
    }
    if |bytes| > MAX_FILE_BYTES {
      return Err(FileTooLarge);
    }
    var total := LineTotal(bytes);
    var start := StartIndex(offset);
    if start >= total {
      return Err(OffsetPastEnd(if offset.Some? then offset.value else 1, total));
    }
    var end := SelectionEnd(start, limit, total);
    var userEnd := if limit.Some? then Some(LimitEnd(start, limit.value, total).1) else None;
    var t := TruncateByLines(LineRange(bytes, start, end, total), DEFAULT_MAX_LINES, DEFAULT_MAX_BYTES);
    var page := FinishPage(start, end, userEnd, total, t);
    return Ok(page);
  }
}

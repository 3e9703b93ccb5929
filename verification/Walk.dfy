/** The directory walk: a mutable stack of ignore matchers against a rule about single paths. */
module Walk {
  import opened Lines

  type Path = seq<Text>

  datatype Match = NoMatch | Ignore | Whitelist

  /** What an ignore file says of a path, given whether it is a directory. */
  type Matcher = (Path, bool) -> Match

  /** The ignore file at some place: none to apply, one with rules, or one that fails the walk. */
  datatype Rules = Absent | Present(matcher: Matcher) | Unusable {
    function Own(): seq<Matcher> { if Present? then [matcher] else [] }
  }

  /** What a path resolves to. `Special` is neither file nor directory, `Vanished` is listed but
      gone when looked up, `Broken` fails to be looked up for another reason. */
  datatype Node =
    | Directory(readable: bool, entries: seq<Entry>, ignore: Rules)
    | Regular(size: nat)
    | Special
    | Vanished
    | Broken

  datatype Entry = Entry(name: Text, node: Node)

  datatype WalkFile = WalkFile(path: Path, relative: Text, isDir: bool, size: nat, skipReadErrors: bool)

  // ----- Relative paths -----

  function Relative(path: Path): Text {
    if path == [] then [] else if |path| == 1 then path[0] else path[0] + "/" + Relative(path[1..])
  }

  predicate SlashFree(name: Text) {
    forall i :: 0 <= i < |name| ==> name[i] != '/'
  }

  predicate AllSlashFree(path: Path) {
    forall i :: 0 <= i < |path| ==> SlashFree(path[i])
  }

  lemma {:induction false} CutAgrees(a: Text, r: Text, b: Text, s: Text)
    requires SlashFree(a) && SlashFree(b) && a + r == b + s
    requires (r == [] || r[0] == '/') && (s == [] || s[0] == '/')
    ensures a == b && r == s
  {
    var w := a + r;
    assert |a| < |w| ==> w[|a|] == r[0];
    assert |b| < |w| ==> w[|b|] == s[0];
    assert forall i :: 0 <= i < |b| ==> w[i] == b[i];
    if |a| < |b| {
      assert false;
    }
    if |b| < |a| {
      assert false;
    }
    assert a == w[..|a|] == b && r == w[|a|..] == s;
  }

  lemma {:induction false} RelativeInjective(p: Path, q: Path)
    requires p != [] && q != [] && AllSlashFree(p) && AllSlashFree(q) && Relative(p) == Relative(q)
    ensures p == q
  {
    var r, s := Behind(p), Behind(q);
    RelativeCut(p);
    RelativeCut(q);
    CutAgrees(p[0], r, q[0], s);
    if |p| > 1 {
      assert Relative(p[1..]) == r[1..] && Relative(q[1..]) == s[1..];
      RelativeInjective(p[1..], q[1..]);
    }
    assert p == [p[0]] + p[1..] && q == [q[0]] + q[1..];
  }

  /** What follows the first name in a relative path. */
  function Behind(p: Path): Text {
    if |p| <= 1 then [] else "/" + Relative(p[1..])
  }

  lemma {:induction false} RelativeCut(p: Path)
    requires p != []
    ensures Relative(p) == p[0] + Behind(p) && (Behind(p) == [] || Behind(p)[0] == '/')
  {
    if |p| == 1 {
      assert p[0] + [] == p[0];
    } else {
      assert p[0] + ("/" + Relative(p[1..])) == p[0] + "/" + Relative(p[1..]);
    }
  }

  lemma {:induction false} TrailingSlash(p: Path)
    requires p != []
    ensures Relative(p + [[]]) == Relative(p) + "/"
  {
    var longer := p + [[]];
    assert longer[1..] == p[1..] + [[]];
    if |p| == 1 {
      assert longer[1..] == [[]];
    } else {
      TrailingSlash(p[1..]);
    }
  }

  function Item(path: Path, node: Node): WalkFile
    requires node.Directory? || node.Regular?
  {
    if node.Directory? then WalkFile(path, Relative(path) + "/", true, 0, true)
    else WalkFile(path, Relative(path), false, node.size, true)
  }

  /** A listed item whose names are real file names. */
  ghost predicate WellFormed(w: WalkFile) {
    && w.path != [] && AllSlashFree(w.path) && w.path[|w.path| - 1] != []
    && w.relative == (if w.isDir then Relative(w.path) + "/" else Relative(w.path))
  }

  lemma {:induction false} RelativeNamesPath(v: WalkFile, w: WalkFile)
    requires WellFormed(v) && WellFormed(w) && v.relative == w.relative
    ensures v.path == w.path && v.isDir == w.isDir
  {
    var p := NameParts(v);
    var q := NameParts(w);
    RelativeInjective(p, q);
  }

  /** The relative name of an item as a path: a directory's has an empty part at the end. */
  lemma {:induction false} NameParts(w: WalkFile) returns (p: Path)
    requires WellFormed(w)
    ensures p != [] && AllSlashFree(p) && w.relative == Relative(p)
    ensures w.isDir <==> p[|p| - 1] == []
    ensures w.path == if w.isDir then p[..|p| - 1] else p
  {
    if w.isDir {
      TrailingSlash(w.path);
      p := w.path + [[]];
      assert p[..|p| - 1] == w.path;
    } else {
      p := w.path;
    }
  }

  // ----- Sorting by a text key -----

  predicate Leq(a: Text, b: Text) {
    a == [] || (b != [] && (a[0] < b[0] || (a[0] == b[0] && Leq(a[1..], b[1..]))))
  }

  /** `k` is where the two texts differ first, and `a` has the smaller character there. */
  predicate SmallerAt(a: Text, b: Text, k: nat) {
    FirstDifference(a, b, k) && a[k] < b[k]
  }

  ghost predicate Smaller(a: Text, b: Text) {
    exists k: nat :: SmallerAt(a, b, k)
  }

  lemma {:induction false} SmallerStep(a: Text, b: Text, k: nat)
    requires a != [] && b != [] && a[0] == b[0]
    ensures SmallerAt(a, b, k + 1) <==> SmallerAt(a[1..], b[1..], k)
    ensures !SmallerAt(a, b, 0)
  {
    if k < |a| - 1 && k < |b| - 1 {
      assert a[..k + 1] == [a[0]] + a[1..][..k] && b[..k + 1] == [b[0]] + b[1..][..k];
      assert a[1..][..k] == a[..k + 1][1..] && b[1..][..k] == b[..k + 1][1..];
    }
  }

  lemma {:induction false} SmallerTail(a: Text, b: Text)
    requires a != [] && b != [] && a[0] == b[0]
    ensures Smaller(a, b) <==> Smaller(a[1..], b[1..])
  {
    if Smaller(a, b) {
      var k: nat :| SmallerAt(a, b, k);
      SmallerStep(a, b, if k > 0 then k - 1 else 0);
    }
    if Smaller(a[1..], b[1..]) {
      var k: nat :| SmallerAt(a[1..], b[1..], k);
      SmallerStep(a, b, k);
    }
  }

  lemma {:induction false} PrefixTail(a: Text, b: Text)
    requires a != [] && b != [] && a[0] == b[0]
    ensures a <= b <==> a[1..] <= b[1..]
  {
    assert a == [a[0]] + a[1..] && b == [b[0]] + b[1..];
  }

  /** The order of texts is lexicographic: a prefix comes first, and otherwise the first character in
      which two texts differ decides. */
  lemma {:induction false} LeqIsLexicographic(a: Text, b: Text)
    ensures Leq(a, b) <==> a <= b || Smaller(a, b)
  {
    if a != [] && b != [] {
      if a[0] == b[0] {
        LeqIsLexicographic(a[1..], b[1..]);
        SmallerTail(a, b);
        PrefixTail(a, b);
      } else {
        SameStart(a, b);
        assert a[0] < b[0] ==> SmallerAt(a, b, 0);
      }
    }
  }

  lemma {:induction false} SameStart(a: Text, b: Text)
    ensures forall k: nat :: FirstDifference(a, b, k) && k > 0 ==> a[0] == b[0]
  {
    forall k: nat | FirstDifference(a, b, k) && k > 0 ensures a[0] == b[0] {
      assert a[..k][0] == b[..k][0];
    }
  }

  predicate FirstDifference(a: Text, b: Text, k: nat) {
    k < |a| && k < |b| && a[k] != b[k] && a[..k] == b[..k]
  }

  lemma {:induction false} LeqTotal(a: Text, b: Text)
    ensures Leq(a, b) || Leq(b, a)
  {
    if a != [] && b != [] && a[0] == b[0] {
      LeqTotal(a[1..], b[1..]);
    }
  }

  lemma {:induction false} LeqTransitive(a: Text, b: Text, c: Text)
    requires Leq(a, b) && Leq(b, c)
    ensures Leq(a, c)
  {
    if a != [] && a[0] == b[0] && b[0] == c[0] {
      LeqTransitive(a[1..], b[1..], c[1..]);
    }
  }

  predicate SortedBy<T(!new)>(key: T -> Text, xs: seq<T>) {
    forall i, j {:trigger Leq(key(xs[i]), key(xs[j]))} :: 0 <= i < j < |xs| ==> Leq(key(xs[i]), key(xs[j]))
  }

  ghost predicate DistinctBy<T(!new)>(key: T -> Text, xs: seq<T>) {
    forall i, j :: 0 <= i < j < |xs| ==> key(xs[i]) != key(xs[j])
  }

  /** Insert behind every element whose key is no greater, so equal keys keep their order. */
  function InsertBy<T(!new)>(key: T -> Text, x: T, xs: seq<T>): (r: seq<T>)
    requires SortedBy(key, xs)
    ensures SortedBy(key, r) && multiset(r) == multiset(xs) + multiset{x}
    ensures DistinctBy(key, xs + [x]) ==> DistinctBy(key, r)
  {
    if xs == [] then [x] else
      var last := xs[|xs| - 1];
      var init := xs[..|xs| - 1];
      assert xs == init + [last];
      if Leq(key(last), key(x)) then
        EndsLast(key, xs, x);
        xs + [x]
      else
        LeqTotal(key(last), key(x));
        var r := InsertBy(key, x, init);
        KeysOf(key, x, init, r, last);
        r + [last]
  }

  lemma {:induction false} EndsLast<T(!new)>(key: T -> Text, xs: seq<T>, x: T)
    requires SortedBy(key, xs) && xs != [] && Leq(key(xs[|xs| - 1]), key(x))
    ensures SortedBy(key, xs + [x])
  {
    forall i | 0 <= i < |xs| ensures Leq(key(xs[i]), key(x)) {
      if i < |xs| - 1 {
        LeqTransitive(key(xs[i]), key(xs[|xs| - 1]), key(x));
      }
    }
  }

  lemma {:induction false} KeysOf<T(!new)>(key: T -> Text, x: T, init: seq<T>, r: seq<T>, last: T)
    requires multiset(r) == multiset(init) + multiset{x} && Leq(key(x), key(last))
    requires SortedBy(key, init + [last]) && SortedBy(key, r)
    requires DistinctBy(key, init + [x]) ==> DistinctBy(key, r)
    ensures SortedBy(key, r + [last])
    ensures DistinctBy(key, init + [last] + [x]) ==> DistinctBy(key, r + [last])
  {
    var xs := init + [last];
    var all := xs + [x];
    assert xs[|init|] == last && all[|init| + 1] == x && all[|init|] == last;
    assert forall i :: 0 <= i < |init| ==> xs[i] == init[i] && all[i] == init[i];
    forall i | 0 <= i < |r|
      ensures Leq(key(r[i]), key(last))
      ensures DistinctBy(key, all) ==> key(r[i]) != key(last)
    {
      assert r[i] in multiset(r);
      if r[i] in multiset(init) {
        var k :| 0 <= k < |init| && init[k] == r[i];
        assert xs[k] == r[i] && all[k] == r[i];
      } else {
        assert r[i] == x;
      }
    }
    if DistinctBy(key, all) {
      forall i, j | 0 <= i < j < |init + [x]| ensures key((init + [x])[i]) != key((init + [x])[j]) {
        assert (init + [x])[i] == all[i];
        assert (init + [x])[j] == all[if j == |init| then j + 1 else j];
      }
    }
  }

  function SortBy<T(!new)>(key: T -> Text, xs: seq<T>): (r: seq<T>)
    ensures SortedBy(key, r) && multiset(r) == multiset(xs)
    ensures DistinctBy(key, xs) ==> DistinctBy(key, r)
  {
    if xs == [] then [] else
      var last := xs[|xs| - 1];
      var init := xs[..|xs| - 1];
      assert xs == init + [last];
      var sorted := SortBy(key, init);
      DistinctMoves(key, init, sorted, last);
      InsertBy(key, last, sorted)
  }

  lemma {:induction false} DistinctMoves<T(!new)>(key: T -> Text, init: seq<T>, sorted: seq<T>, last: T)
    requires multiset(sorted) == multiset(init) && (DistinctBy(key, init) ==> DistinctBy(key, sorted))
    ensures DistinctBy(key, init + [last]) ==> DistinctBy(key, sorted + [last])
  {
    var xs := init + [last];
    if DistinctBy(key, xs) {
      assert xs[|init|] == last && forall i :: 0 <= i < |init| ==> xs[i] == init[i];
      forall i | 0 <= i < |sorted| ensures key(sorted[i]) != key(last) {
        assert sorted[i] in multiset(init);
        var k :| 0 <= k < |init| && init[k] == sorted[i];
      }
    }
  }

  function ByName(entries: seq<Entry>): (r: seq<Entry>)
    ensures multiset(r) == multiset(entries)
    ensures forall e :: e in r <==> e in entries
    ensures DistinctNames(entries) ==> DistinctNames(r)
  {
    var r := SortBy((e: Entry) => e.name, entries);
    assert forall e :: e in r <==> e in multiset(r);
    assert forall e :: e in entries <==> e in multiset(entries);
    r
  }

  ghost predicate DistinctNames(entries: seq<Entry>) {
    DistinctBy((e: Entry) => e.name, entries)
  }

  // ----- The rule about a single path -----

  /** The last matcher with an opinion ignores the path. */
  ghost predicate Ignored(rules: seq<Matcher>, path: Path, isDir: bool) {
    exists i :: 0 <= i < |rules| && rules[i](path, isDir) == Ignore
      && forall j :: i < j < |rules| ==> rules[j](path, isDir) == NoMatch
  }

  ghost predicate Kept(rules: seq<Matcher>, path: Path, e: Entry) {
    !(e.node.Directory? && e.name == ".git") && !Ignored(rules, path, e.node.Directory?)
  }

  function Own(node: Node): seq<Matcher> {
    if node.Directory? then node.ignore.Own() else []
  }

  function Names(trail: seq<Entry>): (p: Path)
    ensures |p| == |trail|
  {
    if trail == [] then [] else [trail[0].name] + Names(trail[1..])
  }

  function OwnRules(trail: seq<Entry>): seq<Matcher> {
    if trail == [] then [] else Own(trail[0].node) + OwnRules(trail[1..])
  }

  /** A way down from a directory holding `entries`: each step is an entry of the one before. */
  ghost predicate Trail(entries: seq<Entry>, trail: seq<Entry>) {
    && trail != [] && trail[0] in entries
    && (|trail| > 1 ==> trail[0].node.Directory? && trail[0].node.readable
                        && Trail(trail[0].node.entries, trail[1..]))
  }

  /** Every entry on the way survives the rules in force above it: `rules`, then the ignore files
      of the directories passed so far, outermost first. */
  ghost predicate Survives(rules: seq<Matcher>, at: Path, trail: seq<Entry>) {
    forall i :: 0 <= i < |trail| ==> KeptAt(rules, at, trail, i)
  }

  ghost predicate KeptAt(rules: seq<Matcher>, at: Path, trail: seq<Entry>, i: nat)
    requires i < |trail|
  {
    Kept(rules + OwnRules(trail[..i]), at + Names(trail[..i + 1]), trail[i])
  }

  /** The rule for one item: `trail` leads to it, survives, and ends in a directory or a file. */
  ghost predicate Lists(entries: seq<Entry>, rules: seq<Matcher>, at: Path, trail: seq<Entry>, w: WalkFile) {
    && Trail(entries, trail) && Survives(rules, at, trail)
    && var node := trail[|trail| - 1].node;
       && (node.Directory? || node.Regular?)
       && w.path == at + Names(trail) && w.isDir == node.Directory?
       && w.size == (if node.Regular? then node.size else 0) && w.skipReadErrors
       && w.relative == Relative(w.path) + (if node.Directory? then "/" else "")
  }

  predicate Faulty(node: Node) {
    node.Broken? || (node.Directory? && (!node.readable || node.ignore.Unusable?))
  }

  /** A surviving way down to something that cannot be looked up or read. */
  ghost predicate Fails(entries: seq<Entry>, rules: seq<Matcher>, at: Path, trail: seq<Entry>) {
    Trail(entries, trail) && Survives(rules, at, trail) && Faulty(trail[|trail| - 1].node)
  }

  lemma {:induction false} KeptFirst(rules: seq<Matcher>, at: Path, trail: seq<Entry>)
    requires trail != []
    ensures KeptAt(rules, at, trail, 0) <==> Kept(rules, at + [trail[0].name], trail[0])
  {
    assert trail[..1] == [trail[0]] && Names([trail[0]]) == [trail[0].name] + Names([trail[0]][1..]);
    assert Names(trail[..1]) == [trail[0].name];
    assert rules + OwnRules(trail[..0]) == rules;
  }

  lemma {:induction false} KeptBelow(rules: seq<Matcher>, at: Path, trail: seq<Entry>, i: nat)
    requires i + 1 < |trail|
    ensures KeptAt(rules, at, trail, i + 1)
            <==> KeptAt(rules + Own(trail[0].node), at + [trail[0].name], trail[1..], i)
  {
    var rest := trail[1..];
    assert trail[..i + 1][1..] == rest[..i] && trail[..i + 2][1..] == rest[..i + 1];
    Assoc(rules, Own(trail[0].node), OwnRules(rest[..i]));
    Assoc(at, [trail[0].name], Names(rest[..i + 1]));
  }

  lemma {:induction false} SurvivesStep(rules: seq<Matcher>, at: Path, trail: seq<Entry>)
    requires trail != []
    ensures Survives(rules, at, trail) <==>
              Kept(rules, at + [trail[0].name], trail[0])
              && Survives(rules + Own(trail[0].node), at + [trail[0].name], trail[1..])
  {
    KeptFirst(rules, at, trail);
    var rest, inner, path := trail[1..], rules + Own(trail[0].node), at + [trail[0].name];
    if Survives(rules, at, trail) {
      forall i | 0 <= i < |rest| ensures KeptAt(inner, path, rest, i) {
        KeptBelow(rules, at, trail, i);
        assert KeptAt(rules, at, trail, i + 1);
      }
    }
    if KeptAt(rules, at, trail, 0) && Survives(inner, path, rest) {
      forall i | 0 <= i < |trail| ensures KeptAt(rules, at, trail, i) {
        if i > 0 {
          assert KeptAt(inner, path, rest, i - 1);
          KeptBelow(rules, at, trail, i - 1);
        }
      }
    }
  }

  // ----- The walk, with its stack passed as a value -----

  ghost function Listing(dir: Node, es: seq<Entry>, at: Path, rules: seq<Matcher>): Result<seq<WalkFile>>
    requires dir.Directory? && forall e :: e in es ==> e in dir.entries
    decreases dir, |es|
  {
    if es == [] then Ok([]) else
      var before :- Listing(dir, es[..|es| - 1], at, rules);
      var here :- Visit(dir, es[|es| - 1], at, rules);
      Ok(before + here)
  }

  ghost function Visit(dir: Node, e: Entry, at: Path, rules: seq<Matcher>): Result<seq<WalkFile>>
    requires dir.Directory? && e in dir.entries
    decreases dir, 0
  {
    var path := at + [e.name];
    if !Kept(rules, path, e) then Ok([])
    else if e.node.Broken? then Err(FsFailure)
    else if e.node.Regular? then Ok([Item(path, e.node)])
    else if !e.node.Directory? then Ok([])
    else if e.node.ignore.Unusable? then Err(BadIgnoreRules)
    else if !e.node.readable then Err(FsFailure)
    else
      var below :- Listing(e.node, ByName(e.node.entries), path, rules + Own(e.node));
      Ok([Item(path, e.node)] + below)
  }

  /** Everything the walk lists is there by the rule. */
  lemma {:induction false} ListingSound(dir: Node, es: seq<Entry>, at: Path, rules: seq<Matcher>, w: WalkFile)
    returns (trail: seq<Entry>)
    requires dir.Directory? && forall e :: e in es ==> e in dir.entries
    requires Listing(dir, es, at, rules).Ok? && w in Listing(dir, es, at, rules).value
    ensures Lists(es, rules, at, trail, w)
    decreases dir, |es|
  {
    var init, e := es[..|es| - 1], es[|es| - 1];
    if w in Listing(dir, init, at, rules).value {
      trail := ListingSound(dir, init, at, rules, w);
    } else {
      trail := VisitSound(dir, e, at, rules, w);
    }
  }

  lemma {:induction false} VisitSound(dir: Node, e: Entry, at: Path, rules: seq<Matcher>, w: WalkFile)
    returns (trail: seq<Entry>)
    requires dir.Directory? && e in dir.entries
    requires Visit(dir, e, at, rules).Ok? && w in Visit(dir, e, at, rules).value
    ensures Lists([e], rules, at, trail, w)
    decreases dir, 0
  {
    var path := at + [e.name];
    if w == Item(path, e.node) {
      trail := [e];
      Alone(e, at, rules);
    } else {
      var below := ListingSound(e.node, ByName(e.node.entries), path, rules + Own(e.node), w);
      trail := [e] + below;
      Under(e, at, rules, below);
    }
  }

  /** The trail of one entry. */
  lemma {:induction false} Alone(e: Entry, at: Path, rules: seq<Matcher>)
    ensures Survives(rules, at, [e]) <==> Kept(rules, at + [e.name], e)
    ensures Trail([e], [e]) && Names([e]) == [e.name]
  {
    SurvivesStep(rules, at, [e]);
    assert [e][1..] == [];
  }

  /** A trail below an entry, seen from above it. */
  lemma {:induction false} Under(e: Entry, at: Path, rules: seq<Matcher>, below: seq<Entry>)
    requires below != []
    ensures Survives(rules, at, [e] + below) <==>
              Kept(rules, at + [e.name], e) && Survives(rules + Own(e.node), at + [e.name], below)
    ensures Trail([e], [e] + below) <==>
              e.node.Directory? && e.node.readable && Trail(e.node.entries, below)
    ensures at + Names([e] + below) == at + [e.name] + Names(below)
  {
    SurvivesStep(rules, at, [e] + below);
    assert ([e] + below)[1..] == below;
    Assoc(at, [e.name], Names(below));
  }

  /** A surviving trail does its part: a fault at its end fails the walk, and otherwise what it
      leads to is listed. */
  lemma {:induction false} ListingComplete(dir: Node, es: seq<Entry>, at: Path, rules: seq<Matcher>, trail: seq<Entry>)
    requires dir.Directory? && forall e :: e in es ==> e in dir.entries
    requires Trail(es, trail) && Survives(rules, at, trail)
    requires Listing(dir, es, at, rules).Ok?
    ensures var node := trail[|trail| - 1].node;
            !Faulty(node)
            && (node.Directory? || node.Regular? ==>
                  Item(at + Names(trail), node) in Listing(dir, es, at, rules).value)
    decreases dir, |es|
  {
    var init, e := es[..|es| - 1], es[|es| - 1];
    if trail[0] in init {
      ListingComplete(dir, init, at, rules, trail);
    } else {
      assert trail[0] == e;
      VisitComplete(dir, e, at, rules, trail);
    }
  }

  lemma {:induction false} VisitComplete(dir: Node, e: Entry, at: Path, rules: seq<Matcher>, trail: seq<Entry>)
    requires dir.Directory? && e in dir.entries
    requires Trail([e], trail) && Survives(rules, at, trail)
    requires Visit(dir, e, at, rules).Ok?
    ensures var node := trail[|trail| - 1].node;
            !Faulty(node)
            && (node.Directory? || node.Regular? ==>
                  Item(at + Names(trail), node) in Visit(dir, e, at, rules).value)
    decreases dir, 0
  {
    if |trail| == 1 {
      assert trail == [e];
      Alone(e, at, rules);
    } else {
      var below := trail[1..];
      assert trail == [e] + below;
      Under(e, at, rules, below);
      ListingComplete(e.node, ByName(e.node.entries), at + [e.name], rules + Own(e.node), below);
    }
  }

  /** A failing walk met a fault at the end of a surviving trail. */
  lemma {:induction false} ListingFault(dir: Node, es: seq<Entry>, at: Path, rules: seq<Matcher>)
    returns (trail: seq<Entry>)
    requires dir.Directory? && forall e :: e in es ==> e in dir.entries
    requires Listing(dir, es, at, rules).Err?
    ensures Fails(es, rules, at, trail)
    decreases dir, |es|
  {
    var init, e := es[..|es| - 1], es[|es| - 1];
    if Listing(dir, init, at, rules).Err? {
      trail := ListingFault(dir, init, at, rules);
    } else {
      trail := VisitFault(dir, e, at, rules);
    }
  }

  lemma {:induction false} VisitFault(dir: Node, e: Entry, at: Path, rules: seq<Matcher>)
    returns (trail: seq<Entry>)
    requires dir.Directory? && e in dir.entries
    requires Visit(dir, e, at, rules).Err?
    ensures Fails([e], rules, at, trail)
    decreases dir, 0
  {
    if Faulty(e.node) {
      trail := [e];
      Alone(e, at, rules);
    } else {
      var below := ListingFault(e.node, ByName(e.node.entries), at + [e.name], rules + Own(e.node));
      trail := [e] + below;
      Under(e, at, rules, below);
    }
  }

  /** The stack walk refines the rule about single paths: it lists exactly what survives, and
      fails exactly when something surviving cannot be looked up or read. */
  lemma {:induction false} WalkIsRule(dir: Node, at: Path, rules: seq<Matcher>)
    requires dir.Directory?
    ensures var r := Listing(dir, ByName(dir.entries), at, rules);
            && (r.Err? <==> exists trail :: Fails(dir.entries, rules, at, trail))
            && (r.Ok? ==> forall w :: w in r.value <==> exists trail :: Lists(dir.entries, rules, at, trail, w))
  {
    var es := ByName(dir.entries);
    var r := Listing(dir, es, at, rules);
    if r.Err? {
      var trail := ListingFault(dir, es, at, rules);
      assert Fails(dir.entries, rules, at, trail);
    } else {
      forall trail: seq<Entry> | Trail(dir.entries, trail) && Survives(rules, at, trail)
        ensures var node := trail[|trail| - 1].node;
                !Faulty(node) && (node.Directory? || node.Regular? ==> Item(at + Names(trail), node) in r.value)
      {
        ListingComplete(dir, es, at, rules, trail);
      }
      forall w | w in r.value ensures exists trail :: Lists(dir.entries, rules, at, trail, w) {
        var trail := ListingSound(dir, es, at, rules, w);
        assert Lists(dir.entries, rules, at, trail, w);
      }
    }
  }

  // ----- No item twice -----

  /** Names as a file system gives them: no two alike in a directory, none empty or with a slash. */
  ghost predicate WellNamed(node: Node) {
    node.Directory? ==>
      && DistinctNames(node.entries)
      && forall i :: 0 <= i < |node.entries| ==>
           var e := node.entries[i]; e.name != [] && SlashFree(e.name) && WellNamed(e.node)
  }

  /** `w` lies below `at`, and its next name is one of those of `es`. */
  ghost predicate Below(at: Path, es: seq<Entry>, w: WalkFile) {
    && WellFormed(w) && |at| < |w.path| && w.path[..|at|] == at
    && exists i :: 0 <= i < |es| && es[i].name == w.path[|at|]
  }

  ghost predicate DistinctPaths(files: seq<WalkFile>) {
    forall i, j :: 0 <= i < j < |files| ==> files[i].path != files[j].path
  }

  lemma {:induction false} ListingDistinct(dir: Node, es: seq<Entry>, at: Path, rules: seq<Matcher>, out: seq<WalkFile>)
    requires dir.Directory? && (forall e :: e in es ==> e in dir.entries)
    requires WellNamed(dir) && DistinctNames(es) && AllSlashFree(at)
    requires Listing(dir, es, at, rules) == Ok(out)
    ensures DistinctPaths(out) && forall w :: w in out ==> Below(at, es, w)
    decreases dir, |es|
  {
    if es != [] {
      var init, e := es[..|es| - 1], es[|es| - 1];
      var before := Listing(dir, init, at, rules).value;
      var here := Visit(dir, e, at, rules).value;
      assert es == init + [e] && out == before + here;
      DistinctNamesInit(init, e);
      ListingDistinct(dir, init, at, rules, before);
      VisitDistinct(dir, e, at, rules, here);
      BelowJoins(init, e, at, before, here);
    }
  }

  lemma {:induction false} DistinctNamesInit(init: seq<Entry>, e: Entry)
    requires DistinctNames(init + [e])
    ensures DistinctNames(init)
    ensures forall i :: 0 <= i < |init| ==> init[i].name != e.name
  {
    var es := init + [e];
    assert es[|init|] == e && forall i :: 0 <= i < |init| ==> es[i] == init[i];
  }

  lemma {:induction false} BelowJoins(init: seq<Entry>, e: Entry, at: Path, before: seq<WalkFile>, here: seq<WalkFile>)
    requires forall i :: 0 <= i < |init| ==> init[i].name != e.name
    requires DistinctPaths(before) && forall w :: w in before ==> Below(at, init, w)
    requires DistinctPaths(here) && forall w :: w in here ==> Below(at, [e], w)
    ensures DistinctPaths(before + here)
    ensures forall w :: w in before + here ==> Below(at, init + [e], w)
  {
    var es, out := init + [e], before + here;
    forall w | w in before ensures Below(at, es, w) && w.path[|at|] != e.name {
      assert Below(at, init, w);
      var i :| 0 <= i < |init| && init[i].name == w.path[|at|];
      assert es[i].name == w.path[|at|];
    }
    forall w | w in here ensures Below(at, es, w) && w.path[|at|] == e.name {
      assert Below(at, [e], w);
      assert es[|init|].name == w.path[|at|];
    }
    forall i, j | 0 <= i < j < |out| ensures out[i].path != out[j].path {
      assert out[i] == if i < |before| then before[i] else here[i - |before|];
      assert out[j] == if j < |before| then before[j] else here[j - |before|];
      if i < |before| <= j {
        assert out[i] in before && out[j] in here;
      }
    }
  }

  lemma {:induction false} VisitDistinct(dir: Node, e: Entry, at: Path, rules: seq<Matcher>, out: seq<WalkFile>)
    requires dir.Directory? && e in dir.entries
    requires WellNamed(dir) && AllSlashFree(at)
    requires Visit(dir, e, at, rules) == Ok(out)
    ensures DistinctPaths(out) && forall w :: w in out ==> Below(at, [e], w)
    decreases dir, 0
  {
    NamesOfEntry(dir, e);
    if out != [] {
      ItemBelow(e, at);
      if e.node.Directory? {
        var path, es := at + [e.name], ByName(e.node.entries);
        var below := Listing(e.node, es, path, rules + Own(e.node)).value;
        ListingDistinct(e.node, es, path, rules + Own(e.node), below);
        ItemFirst(e, at, es, below);
        assert out == [Item(path, e.node)] + below;
      } else {
        assert out == [Item(at + [e.name], e.node)];
      }
    }
  }

  lemma {:induction false} NamesOfEntry(dir: Node, e: Entry)
    requires dir.Directory? && e in dir.entries && WellNamed(dir)
    ensures e.name != [] && SlashFree(e.name) && WellNamed(e.node)
    ensures e.node.Directory? ==> DistinctNames(e.node.entries)
  {
    var i :| 0 <= i < |dir.entries| && dir.entries[i] == e;
  }

  lemma {:induction false} ItemBelow(e: Entry, at: Path)
    requires (e.node.Directory? || e.node.Regular?) && e.name != [] && SlashFree(e.name) && AllSlashFree(at)
    ensures AllSlashFree(at + [e.name]) && Below(at, [e], Item(at + [e.name], e.node))
  {
    var path := at + [e.name];
    assert path[..|at|] == at && path[|at|] == e.name && [e][0].name == e.name;
  }

  lemma {:induction false} ItemFirst(e: Entry, at: Path, es: seq<Entry>, below: seq<WalkFile>)
    requires e.node.Directory? && Below(at, [e], Item(at + [e.name], e.node))
    requires DistinctPaths(below) && forall w :: w in below ==> Below(at + [e.name], es, w)
    ensures DistinctPaths([Item(at + [e.name], e.node)] + below)
    ensures forall w :: w in [Item(at + [e.name], e.node)] + below ==> Below(at, [e], w)
  {
    var path := at + [e.name];
    var first := Item(path, e.node);
    forall w | w in below ensures Below(at, [e], w) && |w.path| > |path| {
      assert Below(path, es, w);
      DeeperIsBelow(e, at, es, w);
    }
    FirstIsDistinct(first, below);
  }

  lemma {:induction false} DeeperIsBelow(e: Entry, at: Path, es: seq<Entry>, w: WalkFile)
    requires Below(at + [e.name], es, w)
    ensures Below(at, [e], w)
  {
    var path := at + [e.name];
    assert w.path[..|path|] == path;
    assert w.path[..|at|] == path[..|at|] == at && w.path[|at|] == path[|at|] == e.name;
    assert [e][0].name == w.path[|at|];
  }

  lemma {:induction false} FirstIsDistinct(first: WalkFile, rest: seq<WalkFile>)
    requires DistinctPaths(rest) && forall w :: w in rest ==> |w.path| > |first.path|
    ensures DistinctPaths([first] + rest)
  {
    var out := [first] + rest;
    forall i, j | 0 <= i < j < |out| ensures out[i].path != out[j].path {
      assert out[j] == rest[j - 1] && rest[j - 1] in rest;
      assert i > 0 ==> out[i] == rest[i - 1];
    }
  }

  /** Distinct paths show as distinct relative names: directories and files cannot collide. */
  lemma {:induction false} PathsAreNames(files: seq<WalkFile>)
    requires DistinctPaths(files) && forall w :: w in files ==> WellFormed(w)
    ensures DistinctBy((w: WalkFile) => w.relative, files)
  {
    forall i, j | 0 <= i < j < |files| ensures files[i].relative != files[j].relative {
      if files[i].relative == files[j].relative {
        RelativeNamesPath(files[i], files[j]);
      }
    }
  }

  /** In order of relative name. */
  ghost predicate InOrder(files: seq<WalkFile>) {
    SortedBy((w: WalkFile) => w.relative, files)
  }

  ghost predicate NoNameTwice(files: seq<WalkFile>) {
    DistinctBy((w: WalkFile) => w.relative, files)
  }

  // ----- The walk as it runs -----

  class Walker {
    var matchers: seq<Matcher>
    var files: seq<WalkFile>

    constructor ()
      ensures matchers == [] && files == []
    {
      matchers, files := [], [];
    }

    method AddIgnoreFile(rules: Rules) returns (r: Result<()>)
      modifies this`matchers
      ensures r == if rules.Unusable? then Err(BadIgnoreRules) else Ok(())
      ensures matchers == old(matchers) + rules.Own()
    {
      match rules
      case Absent =>
        r := Ok(());
      case Present(matcher) =>
        matchers := matchers + [matcher];
        r := Ok(());
      case Unusable =>
        r := Err(BadIgnoreRules);
    }

    method IsIgnored(path: Path, isDir: bool) returns (ignored: bool)
      ensures ignored <==> Ignored(matchers, path, isDir)
    {
      ignored := false;
      for i := 0 to |matchers|
        invariant ignored <==> Ignored(matchers[..i], path, isDir)
      {
        var m := matchers[i](path, isDir);
        LastWord(matchers, i, path, isDir);
        match m
        case NoMatch =>
        case Ignore => ignored := true;
        case Whitelist => ignored := false;
      }
      assert matchers[..|matchers|] == matchers;
    }

    method WalkDirectory(directory: Node, relative: Path) returns (r: Result<()>)
      requires directory.Directory?
      modifies this
      ensures !directory.readable ==> r == Err(FsFailure)
      ensures directory.readable ==>
                match Listing(directory, ByName(directory.entries), relative, old(matchers))
                case Ok(out) => r == Ok(()) && files == old(files) + out && matchers == old(matchers)
                case Err(error) => r == Err(error)
      decreases directory, 2
    {
      if !directory.readable {
        return Err(FsFailure);
      }
      r := WalkEntries(directory, ByName(directory.entries), relative);
    }

    /** The loop over a directory's entries, already in order. */
    method WalkEntries(ghost directory: Node, entries: seq<Entry>, relative: Path) returns (r: Result<()>)
      requires directory.Directory? && forall e :: e in entries ==> e in directory.entries
      modifies this
      ensures match Listing(directory, entries, relative, old(matchers))
              case Ok(out) => r == Ok(()) && files == old(files) + out && matchers == old(matchers)
              case Err(error) => r == Err(error)
      decreases directory, 1
    {
      ghost var out: seq<WalkFile> := [];
      for i := 0 to |entries|
        invariant matchers == old(matchers)
        invariant Listing(directory, entries[..i], relative, old(matchers)) == Ok(out)
        invariant files == old(files) + out
      {
        ListingStep(directory, entries, i, relative, matchers);
        ghost var here := Visit(directory, entries[i], relative, matchers);
        r := VisitEntry(directory, entries[i], relative);
        if r.Err? {
          FailureStays(directory, entries, i + 1, relative, old(matchers));
          return;
        }
        Assoc(old(files), out, here.value);
        out := out + here.value;
      }
      assert entries[..|entries|] == entries;
      r := Ok(());
    }

    /** List a kept directory and everything below it, its own ignore file in force there only. */
    method Descend(node: Node, path: Path) returns (r: Result<()>)
      requires node.Directory?
      modifies this
      ensures node.ignore.Unusable? ==> r == Err(BadIgnoreRules)
      ensures !node.ignore.Unusable? && !node.readable ==> r == Err(FsFailure)
      ensures !node.ignore.Unusable? && node.readable ==>
                match Listing(node, ByName(node.entries), path, old(matchers) + Own(node))
                case Ok(out) =>
                  r == Ok(()) && files == old(files) + ([Item(path, node)] + out) && matchers == old(matchers)
                case Err(error) => r == Err(error)
      decreases node, 3
    {
      files := files + [Item(path, node)];
      var count := |matchers|;
      r := AddIgnoreFile(node.ignore);
      if r.Err? {
        return;
      }
      r := WalkDirectory(node, path);
      if r.Ok? {
        matchers := matchers[..count];
        Assoc(old(files), [Item(path, node)], Listing(node, ByName(node.entries), path, old(matchers) + Own(node)).value);
      }
    }

    /** One turn of the loop over a directory's entries. */
    method VisitEntry(ghost directory: Node, entry: Entry, relative: Path) returns (r: Result<()>)
      requires directory.Directory? && entry in directory.entries
      modifies this
      ensures match Visit(directory, entry, relative, old(matchers))
              case Ok(out) => r == Ok(()) && files == old(files) + out && matchers == old(matchers)
              case Err(error) => r == Err(error)
      decreases directory, 0
    {
      var path := relative + [entry.name];
      if entry.node.Directory? {
        if entry.name == ".git" {
          return Ok(());
        }
        var ignored := IsIgnored(path, true);
        if ignored {
          return Ok(());
        }
        r := Descend(entry.node, path);
      } else {
        var ignored := IsIgnored(path, false);
        if ignored {
          return Ok(());
        }
        match entry.node
        case Regular(_) =>
          files := files + [Item(path, entry.node)];
          r := Ok(());
        case Broken =>
          r := Err(FsFailure);
        case _ =>
          r := Ok(());
      }
    }
  }

  lemma {:induction false} LastWord(rules: seq<Matcher>, i: nat, path: Path, isDir: bool)
    requires i < |rules|
    ensures Ignored(rules[..i + 1], path, isDir) <==>
              match rules[i](path, isDir)
              case NoMatch => Ignored(rules[..i], path, isDir)
              case Ignore => true
              case Whitelist => false
  {
    var upto, before := rules[..i + 1], rules[..i];
    assert upto[i] == rules[i];
    assert forall k :: 0 <= k < i ==> upto[k] == before[k];
    if Ignored(before, path, isDir) && rules[i](path, isDir) == NoMatch {
      var k :| 0 <= k < i && before[k](path, isDir) == Ignore
        && forall j :: k < j < i ==> before[j](path, isDir) == NoMatch;
      assert upto[k](path, isDir) == Ignore;
    }
  }

  lemma {:induction false} ListingStep(dir: Node, es: seq<Entry>, i: nat, at: Path, rules: seq<Matcher>)
    requires dir.Directory? && i < |es| && (forall e :: e in es ==> e in dir.entries)
    ensures match (Listing(dir, es[..i], at, rules), Visit(dir, es[i], at, rules))
            case (Ok(a), Ok(b)) => Listing(dir, es[..i + 1], at, rules) == Ok(a + b)
            case (Ok(_), Err(error)) => Listing(dir, es[..i + 1], at, rules) == Err(error)
            case (Err(error), _) => Listing(dir, es[..i + 1], at, rules) == Err(error)
  {
    assert es[..i + 1][..i] == es[..i] && es[..i + 1][i] == es[i];
  }

  lemma {:induction false} FailureStays(dir: Node, es: seq<Entry>, i: nat, at: Path, rules: seq<Matcher>)
    requires dir.Directory? && i <= |es| && (forall e :: e in es ==> e in dir.entries)
    requires Listing(dir, es[..i], at, rules).Err?
    ensures Listing(dir, es, at, rules) == Listing(dir, es[..i], at, rules)
    decreases |es| - i
  {
    if i == |es| {
      assert es[..i] == es;
    } else {
      ListingStep(dir, es, i, at, rules);
      FailureStays(dir, es, i + 1, at, rules);
    }
  }

  /** The whole walk from a root of any kind, `name` being what a single file is called. It lists
      exactly the surviving items, in order; it fails exactly on a fault in what survives. */
  method WalkFiles(root: Node, exclude: Rules, name: Text) returns (r: Result<seq<WalkFile>>)
    ensures root.Regular? ==> r == Ok([WalkFile([], name, false, root.size, false)])
    ensures root.Special? ==> r == Err(NotFileOrDirectory)
    ensures root.Vanished? || root.Broken? ==> r == Err(FsFailure)
    ensures root.Directory? ==>
              (r.Err? <==> exclude.Unusable? || Faulty(root)
                           || exists trail :: Fails(root.entries, exclude.Own() + root.ignore.Own(), [], trail))
    ensures root.Directory? && r.Ok? ==>
              && InOrder(r.value)
              && (WellNamed(root) ==> NoNameTwice(r.value))
              && forall w :: w in r.value <==>
                   exists trail :: Lists(root.entries, exclude.Own() + root.ignore.Own(), [], trail, w)
  {
    match root
    case Regular(size) =>
      return Ok([WalkFile([], name, false, size, false)]);
    case Special =>
      return Err(NotFileOrDirectory);
    case Vanished =>
      return Err(FsFailure);
    case Broken =>
      return Err(FsFailure);
    case Directory(_, _, _) =>
      r := WalkRoot(root, exclude);
  }

  method WalkRoot(root: Node, exclude: Rules) returns (r: Result<seq<WalkFile>>)
    requires root.Directory?
    ensures r.Err? <==> exclude.Unusable? || Faulty(root)
                        || exists trail :: Fails(root.entries, exclude.Own() + root.ignore.Own(), [], trail)
    ensures r.Ok? ==>
              && InOrder(r.value)
              && (WellNamed(root) ==> NoNameTwice(r.value))
              && forall w :: w in r.value <==>
                   exists trail :: Lists(root.entries, exclude.Own() + root.ignore.Own(), [], trail, w)
  {
    var walker := new Walker();
    var added := walker.AddIgnoreFile(exclude);
    if added.Err? {
      return Err(added.error);
    }
    added := walker.AddIgnoreFile(root.ignore);
    if added.Err? {
      return Err(added.error);
    }
    ghost var rules := exclude.Own() + root.ignore.Own();
    assert walker.matchers == rules;
    if root.readable {
      WalkIsRule(root, [], rules);
    }
    ghost var listing := Listing(root, ByName(root.entries), [], rules);
    var walked := walker.WalkDirectory(root, []);
    if walked.Err? {
      return Err(walked.error);
    }
    var files := walker.files;
    assert files == [] + listing.value == listing.value;
    ListingSorts(root, rules, files);
    r := Ok(SortBy((w: WalkFile) => w.relative, files));
  }

  lemma {:induction false} ListingSorts(root: Node, rules: seq<Matcher>, files: seq<WalkFile>)
    requires root.Directory? && Listing(root, ByName(root.entries), [], rules) == Ok(files)
    ensures var sorted := SortBy((w: WalkFile) => w.relative, files);
            && InOrder(sorted) && (WellNamed(root) ==> NoNameTwice(sorted))
            && forall w :: w in sorted <==> w in files
  {
    var sorted := SortBy((w: WalkFile) => w.relative, files);
    assert forall w :: w in sorted <==> w in multiset(sorted);
    assert forall w :: w in files <==> w in multiset(files);
    if WellNamed(root) {
      ListingDistinct(root, ByName(root.entries), [], rules, files);
      forall w | w in files ensures WellFormed(w) {
        assert Below([], ByName(root.entries), w);
      }
      PathsAreNames(files);
    }
  }
}

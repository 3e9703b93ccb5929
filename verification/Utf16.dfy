/** Clipping text at a number of UTF-16 code units (sections 2.1 and 2.2 of RFC 2781). */
module Utf16 {

  type Unit = nat

  const REPLACEMENT := '\U{FFFD}'

  function Encode(c: char): seq<Unit> {
    var u := c as int;
    if u < 0x10000 then [u] else [0xD800 + (u - 0x10000) / 0x400, 0xDC00 + (u - 0x10000) % 0x400]
  }

  function EncodeAll(s: seq<char>): seq<Unit> {
    if s == [] then [] else Encode(s[0]) + EncodeAll(s[1..])
  }

  predicate IsHigh(u: Unit) { 0xD800 <= u <= 0xDBFF }

  predicate IsLow(u: Unit) { 0xDC00 <= u <= 0xDFFF }

  /** Decoding that writes U+FFFD for an unpaired surrogate. */
  function DecodeLossy(units: seq<Unit>): seq<char>
    requires forall i :: 0 <= i < |units| ==> units[i] <= 0xFFFF
  {
    if units == [] then []
    else if IsHigh(units[0]) && |units| > 1 && IsLow(units[1]) then
      [(0x10000 + (units[0] - 0xD800) * 0x400 + (units[1] - 0xDC00)) as char] + DecodeLossy(units[2..])
    else if IsHigh(units[0]) || IsLow(units[0]) then [REPLACEMENT] + DecodeLossy(units[1..])
    else [units[0] as char] + DecodeLossy(units[1..])
  }

  lemma {:induction false} UnitsInRange(s: seq<char>)
    ensures forall i :: 0 <= i < |EncodeAll(s)| ==> EncodeAll(s)[i] <= 0xFFFF
  {
    if s != [] {
      UnitsInRange(s[1..]);
    }
  }

  function TruncateUtf16(s: seq<char>, maxUnits: nat): (seq<char>, bool) {
    var units := EncodeAll(s);
    UnitsInRange(s);
    if |units| <= maxUnits then (s, false) else (DecodeLossy(units[..maxUnits]), true)
  }

  /** How many whole scalars fit in `max` units. */
  function Whole(s: seq<char>, max: nat): (k: nat)
    ensures k <= |s|
  {
    if s == [] || |Encode(s[0])| > max then 0 else 1 + Whole(s[1..], max - |Encode(s[0])|)
  }

  /** The clipped text: the scalars that fit, then U+FFFD if the limit falls inside a pair. */
  function Clip(s: seq<char>, max: nat): seq<char> {
    var k := Whole(s, max);
    s[..k] + if |EncodeAll(s[..k])| < max then [REPLACEMENT] else []
  }

  lemma {:induction false} PairRoundTrip(c: char)
    requires c as int >= 0x10000
    ensures var p := Encode(c);
      && |p| == 2 && IsHigh(p[0]) && IsLow(p[1])
      && 0x10000 + (p[0] - 0xD800) * 0x400 + (p[1] - 0xDC00) == c as int
  {
  }

  lemma {:induction false} DecodeHead(c: char, rest: seq<Unit>)
    requires forall i :: 0 <= i < |rest| ==> rest[i] <= 0xFFFF
    ensures forall i :: 0 <= i < |Encode(c) + rest| ==> (Encode(c) + rest)[i] <= 0xFFFF
    ensures DecodeLossy(Encode(c) + rest) == [c] + DecodeLossy(rest)
  {
    var units := Encode(c) + rest;
    if c as int >= 0x10000 {
      PairRoundTrip(c);
      assert units[2..] == rest;
    } else {
      assert units[1..] == rest;
    }
  }

  /** Decoding undoes encoding. */
  lemma {:induction false} RoundTrip(s: seq<char>)
    ensures forall i :: 0 <= i < |EncodeAll(s)| ==> EncodeAll(s)[i] <= 0xFFFF
    ensures DecodeLossy(EncodeAll(s)) == s
  {
    UnitsInRange(s);
    if s != [] {
      RoundTrip(s[1..]);
      DecodeHead(s[0], EncodeAll(s[1..]));
    }
  }

  lemma {:induction false} WholeStep(s: seq<char>, max: nat)
    requires s != [] && |Encode(s[0])| <= max
    ensures s[..Whole(s, max)] == [s[0]] + s[1..][..Whole(s[1..], max - |Encode(s[0])|)]
    ensures |EncodeAll(s[..Whole(s, max)])| == |Encode(s[0])| + |EncodeAll(s[1..][..Whole(s[1..], max - |Encode(s[0])|)])|
    ensures Clip(s, max) == [s[0]] + Clip(s[1..], max - |Encode(s[0])|)
  {
    var k := Whole(s[1..], max - |Encode(s[0])|);
    var shown := s[..k + 1];
    assert shown[1..] == s[1..][..k] && shown == [s[0]] + s[1..][..k];
  }

  /** Cutting the units and decoding is clipping by scalars. */
  lemma {:induction false} CutIsClip(s: seq<char>, max: nat)
    requires max < |EncodeAll(s)|
    ensures forall i :: 0 <= i < max ==> EncodeAll(s)[i] <= 0xFFFF
    ensures DecodeLossy(EncodeAll(s)[..max]) == Clip(s, max)
  {
    UnitsInRange(s);
    var units := EncodeAll(s);
    var head := Encode(s[0]);
    if |head| <= max {
      CutIsClip(s[1..], max - |head|);
      var rest := EncodeAll(s[1..])[..max - |head|];
      assert units[..max] == head + rest;
      DecodeHead(s[0], rest);
      WholeStep(s, max);
    } else if max == 1 {
      PairRoundTrip(s[0]);
      assert units[..1] == [head[0]] && [head[0]][1..] == [];
    }
  }

  lemma {:induction false} EncodeConcat(a: seq<char>, b: seq<char>)
    ensures EncodeAll(a + b) == EncodeAll(a) + EncodeAll(b)
  {
    if a == [] {
      assert a + b == b;
    } else {
      EncodeConcat(a[1..], b);
      assert (a + b)[1..] == a[1..] + b;
    }
  }

  lemma {:induction false} WholeIsClose(s: seq<char>, max: nat)
    requires max < |EncodeAll(s)|
    ensures var k := Whole(s, max);
      && k < |s|
      && max - 1 <= |EncodeAll(s[..k])| <= max
      && (|EncodeAll(s[..k])| < max ==> s[k] as int >= 0x10000)
  {
    if |Encode(s[0])| <= max {
      WholeIsClose(s[1..], max - |Encode(s[0])|);
      WholeStep(s, max);
    } else {
      assert s[..0] == [];
    }
  }

  /** Clipping is exact: a text over the limit is cut to exactly `maxUnits` code units, and what is
      left is a prefix of its scalars, followed by one U+FFFD just when the limit splits a pair. */
  lemma {:induction false} ClippingIsExact(s: seq<char>, maxUnits: nat)
    ensures TruncateUtf16(s, maxUnits).1 <==> |EncodeAll(s)| > maxUnits
    ensures !TruncateUtf16(s, maxUnits).1 ==> TruncateUtf16(s, maxUnits).0 == s
    ensures TruncateUtf16(s, maxUnits).1 ==>
      var (clipped, k) := (TruncateUtf16(s, maxUnits).0, Whole(s, maxUnits));
      && |EncodeAll(clipped)| == maxUnits
      && k < |s|
      && clipped == s[..k] + (if |EncodeAll(s[..k])| < maxUnits then [REPLACEMENT] else [])
      && (|EncodeAll(s[..k])| < maxUnits ==> s[k] as int >= 0x10000)
  {
    if |EncodeAll(s)| > maxUnits {
      CutIsClip(s, maxUnits);
      WholeIsClose(s, maxUnits);
      var k := Whole(s, maxUnits);
      EncodeConcat(s[..k], [REPLACEMENT]);
      assert [REPLACEMENT][1..] == [];
      assert s[..k] + [] == s[..k];
    }
  }
}

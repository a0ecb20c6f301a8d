/**
 * `parsePageRange` of src/features/extractor/utils/parse-page-range.ts: an
 * expression such as "1-3, 5, 8-10" over 1-based page numbers becomes the
 * sorted, duplicate-free list of the 0-based indices it names.
 */
module PageRange {
  import opened Wrappers
  import opened Text
  import opened JsSet

  /** What one comma-separated segment says once trimmed: a range "a-b"
      (whitespace allowed around the hyphen), a single page "n", or nothing
      usable. */
  datatype Segment = Range(start: nat, end: nat) | Single(page: nat) | Skip

  /** The length of the longest run of digits at the start of `s`. */
  function DigitPrefix(s: string): (n: nat)
    ensures n <= |s| && AllDigits(s[..n]) && (n == |s| || !IsDigit(s[n]))
  {
    if s != [] && IsDigit(s[0]) then
      var n := 1 + DigitPrefix(s[1..]);
      assert s[..n] == [s[0]] + s[1..][..n - 1];
      n
    else 0
  }

  /** `^(\d+)\s*-\s*(\d+)$` on a trimmed segment. The first group can only
      end where the leading digits end, and the second must run to the end,
      because neither `\s` nor `-` matches a digit: the match needs no
      backtracking. */
  function MatchRange(t: string): Option<(nat, nat)>
  {
    var n := DigitPrefix(t);
    if n == 0 || n == |t| then None
    else
      var u := TrimStart(t[n..]);
      if u != [] && u[0] == '-' then
        var v := TrimStart(u[1..]);
        if v != [] && AllDigits(v) then Some((DigitsValue(t[..n]), DigitsValue(v))) else None
      else None
  }

  /** `^(\d+)$` */
  function MatchSingle(t: string): Option<nat>
  {
    if t != [] && AllDigits(t) then Some(DigitsValue(t)) else None
  }

  /** A segment is trimmed, then tried as a range and then as a single page. */
  function ParseSegment(segment: string): Segment
  {
    ParseTrimmed(Trim(segment))
  }

  function ParseTrimmed(t: string): Segment
  {
    match MatchRange(t)
    case Some((a, b)) => Range(a, b)
    case None =>
      match MatchSingle(t)
      case Some(n) => Single(n)
      case None => Skip
  }

  /** `Math.max(1, Math.min(x, maxPage))` */
  function Clamp(x: int, maxPage: int): (r: int)
    ensures r >= 1 && (maxPage >= 1 ==> r <= maxPage)
    ensures 1 <= x <= maxPage ==> r == x
    ensures r == x || r == 1 || r == maxPage
  {
    if x > maxPage then (if maxPage > 1 then maxPage else 1)
    else if x < 1 then 1
    else x
  }

  /** The 0-based indices one segment adds: a range has both ends clamped to
      [1, maxPage] and is taken in either direction; a single page outside
      [1, maxPage] adds nothing. */
  function Contribution(seg: Segment, maxPage: int): set<int>
  {
    match seg
    case Range(a, b) =>
      var ca := Clamp(a, maxPage);
      var cb := Clamp(b, maxPage);
      var lo := if ca <= cb then ca else cb;
      var hi := if ca <= cb then cb else ca;
      Interval(lo - 1, hi)
    case Single(p) => if 1 <= p <= maxPage then {p - 1} else {}
    case Skip => {}
  }

  /** The integers from `lo` up to, but not including, `hi`. */
  function Interval(lo: int, hi: int): (r: set<int>)
    ensures forall x :: x in r <==> lo <= x < hi
    decreases hi - lo
  {
    if lo >= hi then {} else Interval(lo, hi - 1) + {hi - 1}
  }

  /** `xs.map(f)` */
  function Map<A, B>(f: A -> B, xs: seq<A>): (ys: seq<B>)
    ensures |ys| == |xs| && forall i :: 0 <= i < |xs| ==> ys[i] == f(xs[i])
  {
    seq(|xs|, i requires 0 <= i < |xs| => f(xs[i]))
  }

  /** Mapping a concatenation maps each side. */
  lemma MapConcat<A, B>(f: A -> B, p: seq<A>, q: seq<A>)
    ensures Map(f, p + q) == Map(f, p) + Map(f, q)
  {
    forall i | 0 <= i < |p + q|
      ensures Map(f, p + q)[i] == (Map(f, p) + Map(f, q))[i]
    {
      if i < |p| {
        assert (p + q)[i] == p[i];
      } else {
        assert (p + q)[i] == q[i - |p|];
      }
    }
  }

  /** What each comma-separated part says. */
  function Segments(parts: seq<string>): seq<Segment>
  {
    Map(ParseSegment, parts)
  }

  /** The union of the segments' contributions. */
  function UnionOf(segs: seq<Segment>, maxPage: int): set<int>
  {
    if segs == [] then {}
    else UnionOf(segs[..|segs| - 1], maxPage) + Contribution(segs[|segs| - 1], maxPage)
  }

  /** The set of indices an input names. */
  function PageSet(input: string, maxPage: int): set<int>
  {
    if Trim(input) == [] || maxPage <= 0 then {}
    else UnionOf(Segments(Split(input, ',')), maxPage)
  }

  /** `parsePageRange(input, maxPage)` */
  method ParsePageRange(input: string, maxPage: int) returns (r: seq<int>)
    ensures StrictlyIncreasing(r)
    ensures Elems(r) == PageSet(input, maxPage)
  {
    if Trim(input) == [] || maxPage <= 0 {
      return [];
    }
    var result: seq<int> := [];
    var segments := Split(input, ',');
    ghost var segs := Segments(segments);
    assert PageSet(input, maxPage) == UnionOf(segs, maxPage);
    var k := 0;
    while k < |segments|
      invariant 0 <= k <= |segments|
      invariant Elems(result) == UnionOf(segs[..k], maxPage)
    {
      UnionStep(segs, k, maxPage);
      var seg := ParseSegment(segments[k]);
      assert seg == segs[k];
      result := AddSegment(result, seg, maxPage);
      k := k + 1;
    }
    assert segs[..k] == segs;
    r := SortedMembers(result);
  }

  lemma UnionStep(segs: seq<Segment>, k: nat, maxPage: int)
    requires k < |segs|
    ensures UnionOf(segs[..k + 1], maxPage) == UnionOf(segs[..k], maxPage) + Contribution(segs[k], maxPage)
  {
    assert segs[..k + 1][..k] == segs[..k];
  }

  /** One pass of the loop over segments: adds the pages of the matched
      segment to `result`. */
  method AddSegment(result: seq<int>, seg: Segment, maxPage: int) returns (next: seq<int>)
    ensures Elems(next) == Elems(result) + Contribution(seg, maxPage)
  {
    next := result;
    match seg {
      case Range(start, end) =>
        var clampedStart := Clamp(start, maxPage);
        var clampedEnd := Clamp(end, maxPage);
        var lo := if clampedStart <= clampedEnd then clampedStart else clampedEnd;
        var hi := if clampedStart <= clampedEnd then clampedEnd else clampedStart;
        next := AddInterval(result, lo, hi);
      case Single(page) =>
        if 1 <= page <= maxPage {
          next := Add(next, page - 1);
        }
      case Skip =>
    }
  }

  /** `for (let i = lo; i <= hi; i++) result.add(i - 1)` */
  method AddInterval(result: seq<int>, lo: int, hi: int) returns (next: seq<int>)
    requires lo <= hi
    ensures Elems(next) == Elems(result) + Interval(lo - 1, hi)
  {
    next := result;
    var i := lo;
    while i <= hi
      invariant lo <= i <= hi + 1
      invariant Elems(next) == Elems(result) + Interval(lo - 1, i - 1)
    {
      next := Add(next, i - 1);
      i := i + 1;
    }
  }

  /** Every index named lies in [0, maxPage). */
  lemma {:induction false} UnionBounds(segs: seq<Segment>, maxPage: int)
    requires maxPage > 0
    ensures forall x :: x in UnionOf(segs, maxPage) ==> 0 <= x < maxPage
  {
    if segs != [] {
      UnionBounds(segs[..|segs| - 1], maxPage);
      ContributionBounds(segs[|segs| - 1], maxPage);
    }
  }

  lemma ContributionBounds(seg: Segment, maxPage: int)
    requires maxPage > 0
    ensures forall x :: x in Contribution(seg, maxPage) ==> 0 <= x < maxPage
  {
  }

  lemma PageSetBounds(input: string, maxPage: int)
    ensures forall x :: x in PageSet(input, maxPage) ==> 0 <= x < maxPage
  {
    if maxPage > 0 {
      UnionBounds(Segments(Split(input, ',')), maxPage);
    }
  }

  /** A range adds every index between its clamped ends, in either direction:
      both ends are clamped to [1, maxPage], not dropped. */
  lemma RangeContribution(a: nat, b: nat, maxPage: int, x: int)
    requires maxPage > 0
    ensures x in Contribution(Range(a, b), maxPage) <==>
      (var lo := if a < b then a else b;
       var hi := if a < b then b else a;
       (if lo < 1 then 1 else if lo > maxPage then maxPage else lo) - 1 <= x
       && x < (if hi < 1 then 1 else if hi > maxPage then maxPage else hi))
    ensures Contribution(Range(a, b), maxPage) == Contribution(Range(b, a), maxPage)
  {
  }

  /** A single page is kept exactly when it lies in [1, maxPage]. */
  lemma SingleContribution(p: nat, maxPage: int)
    ensures Contribution(Single(p), maxPage) == (if 1 <= p <= maxPage then {p - 1} else {})
    ensures p > maxPage ==> Contribution(Single(p), maxPage) == {}
  {
  }

  /** A string without the separator splits into itself. */
  lemma {:induction false} SplitNoSeparator(s: string, sep: char)
    requires sep !in s
    ensures Split(s, sep) == [s]
  {
    if s != [] {
      assert sep !in s[1..];
      SplitNoSeparator(s[1..], sep);
      assert [s[0]] + s[1..] == s;
    }
  }

  lemma {:induction false} UnionConcat(a: seq<Segment>, b: seq<Segment>, maxPage: int)
    ensures UnionOf(a + b, maxPage) == UnionOf(a, maxPage) + UnionOf(b, maxPage)
  {
    if b == [] {
      assert a + b == a;
    } else {
      var b' := b[..|b| - 1];
      assert (a + b)[..|a + b| - 1] == a + b';
      UnionConcat(a, b', maxPage);
    }
  }

  /** A text that `trim()` empties is all whitespace. */
  lemma TrimEmptyAllSpace(s: string)
    requires Trim(s) == []
    ensures AllSpace(s)
  {
    var t := TrimStart(s);
    TrimStartShape(s);
    TrimEndShape(t);
    assert s == s[..|s| - |t|] + t;
    assert t[0..] == t;
  }

  /** Text that is only whitespace names no page. */
  lemma BlankNamesNothing(s: string, maxPage: int)
    requires Trim(s) == []
    ensures UnionOf(Segments(Split(s, ',')), maxPage) == {}
  {
    TrimEmptyAllSpace(s);
    assert forall i :: 0 <= i < |s| ==> s[i] != ',';
    SplitNoSeparator(s, ',');
    var segs := Segments(Split(s, ','));
    assert |segs| == 1 && segs[0] == ParseSegment(s);
    assert ParseSegment(s) == Skip by {
      assert MatchRange([]) == None && MatchSingle([]) == None;
    }
    assert segs[..0] == [];
  }

  /** The pages of "a,b" are those of "a" and those of "b": segments do not
      affect each other, and empty or malformed segments add nothing. */
  lemma PageSetUnion(a: string, b: string, maxPage: int)
    ensures PageSet(a + "," + b, maxPage) == PageSet(a, maxPage) + PageSet(b, maxPage)
  {
    if maxPage > 0 {
      var s := a + "," + b;
      assert s == a + [','] + b;
      SplitConcat(a, ',', b);
      SegmentsConcat(Split(a, ','), Split(b, ','));
      UnionConcat(Segments(Split(a, ',')), Segments(Split(b, ',')), maxPage);
      PageSetIsUnion(s, maxPage);
      PageSetIsUnion(a, maxPage);
      PageSetIsUnion(b, maxPage);
    }
  }

  lemma SegmentsConcat(p: seq<string>, q: seq<string>)
    ensures Segments(p + q) == Segments(p) + Segments(q)
  {
    MapConcat(ParseSegment, p, q);
  }

  /** With pages to name, an input names the union of its segments, blank
      or not. */
  lemma PageSetIsUnion(s: string, maxPage: int)
    requires maxPage > 0
    ensures PageSet(s, maxPage) == UnionOf(Segments(Split(s, ',')), maxPage)
  {
    if Trim(s) == [] {
      BlankNamesNothing(s, maxPage);
    }
  }

  /** An input with no comma is one segment. */
  lemma PageSetOneSegment(segment: string, maxPage: int)
    requires ',' !in segment && maxPage > 0
    ensures PageSet(segment, maxPage) == Contribution(ParseSegment(segment), maxPage)
  {
    if Trim(segment) == [] {
      assert ParseTrimmed([]) == Skip by {
        assert MatchRange([]) == None && MatchSingle([]) == None;
      }
    } else {
      SplitNoSeparator(segment, ',');
      var segs := Segments([segment]);
      assert segs == [ParseSegment(segment)];
      assert UnionOf(segs, maxPage) == Contribution(ParseSegment(segment), maxPage) by {
        assert segs[..0] == [];
      }
    }
  }

  lemma {:induction false} DigitPrefixOf(p: string, x: string)
    requires AllDigits(p)
    requires x == [] || !IsDigit(x[0])
    ensures DigitPrefix(p + x) == |p|
  {
    if p == [] {
      assert p + x == x;
    } else {
      assert (p + x)[1..] == p[1..] + x;
      DigitPrefixOf(p[1..], x);
    }
  }

  /** A digit run, padded with any whitespace, is read as that page. */
  lemma ParseSingleText(w1: string, digits: string, w2: string)
    requires AllSpace(w1) && AllSpace(w2)
    requires digits != [] && AllDigits(digits)
    ensures ParseSegment(w1 + digits + w2) == Single(DigitsValue(digits))
  {
    TrimPadded(w1, digits, w2);
    DigitPrefixOf(digits, []);
    assert digits + [] == digits;
  }

  /** Two digit runs around a hyphen match the range pattern, whatever
      whitespace surrounds the hyphen. */
  lemma MatchRangeText(a: string, w2: string, w3: string, b: string)
    requires AllSpace(w2) && AllSpace(w3)
    requires a != [] && AllDigits(a) && b != [] && AllDigits(b)
    ensures MatchRange(a + w2 + "-" + w3 + b) == Some((DigitsValue(a), DigitsValue(b)))
  {
    assert a + w2 + "-" + w3 + b == a + (w2 + (['-'] + (w3 + b)));
    MatchRangeParts(a, w2, w3, b);
  }

  lemma MatchRangeParts(a: string, w2: string, w3: string, b: string)
    requires AllSpace(w2) && AllSpace(w3)
    requires a != [] && AllDigits(a) && b != [] && AllDigits(b)
    ensures MatchRange(a + (w2 + (['-'] + (w3 + b)))) == Some((DigitsValue(a), DigitsValue(b)))
  {
    var y := ['-'] + (w3 + b);
    var x := w2 + y;
    RangeHead(a, w2, y);
    RangeTail(w3, b);
    MatchRangeSteps(a + x, |a|, y, b);
  }

  /** The first number, then whitespace up to the hyphen. */
  lemma RangeHead(a: string, w2: string, y: string)
    requires AllSpace(w2) && a != [] && AllDigits(a)
    requires y != [] && y[0] == '-'
    ensures var t := a + (w2 + y);
      && 0 < |a| < |t| && DigitPrefix(t) == |a| && t[..|a|] == a && TrimStart(t[|a|..]) == y
  {
    HyphenAfterSpace(w2, y);
    SplitAtDigits(a, w2 + y);
    TrimStartPadded(w2, y);
  }

  /** After the hyphen, whitespace and then the second number. */
  lemma RangeTail(w3: string, b: string)
    requires AllSpace(w3) && b != [] && AllDigits(b)
    ensures TrimStart((['-'] + (w3 + b))[1..]) == b
  {
    assert IsDigit(b[0]);
    TrimStartPadded(w3, b);
    assert (['-'] + (w3 + b))[1..] == w3 + b;
  }

  lemma HyphenAfterSpace(w: string, y: string)
    requires AllSpace(w) && y != [] && y[0] == '-'
    ensures !IsDigit((w + y)[0])
  {
    if w != [] {
      assert (w + y)[0] == w[0] && IsSpace(w[0]);
    }
  }

  /** Digits followed by a non-digit: the leading digit run is exactly them. */
  lemma SplitAtDigits(p: string, x: string)
    requires AllDigits(p)
    requires x == [] || !IsDigit(x[0])
    ensures DigitPrefix(p + x) == |p| && (p + x)[..|p|] == p && (p + x)[|p|..] == x
  {
    DigitPrefixOf(p, x);
  }

  /** The steps of `MatchRange` once each is known. */
  lemma MatchRangeSteps(t: string, n: nat, u: string, v: string)
    requires 0 < n < |t| && DigitPrefix(t) == n
    requires TrimStart(t[n..]) == u && u != [] && u[0] == '-'
    requires TrimStart(u[1..]) == v && v != [] && AllDigits(v)
    ensures MatchRange(t) == Some((DigitsValue(t[..n]), DigitsValue(v)))
  {
  }

  /** Two digit runs around a hyphen are read as a range, whatever whitespace
      surrounds the segment and the hyphen. */
  lemma ParseRangeText(w1: string, a: string, w2: string, w3: string, b: string, w4: string)
    requires AllSpace(w1) && AllSpace(w2) && AllSpace(w3) && AllSpace(w4)
    requires a != [] && AllDigits(a) && b != [] && AllDigits(b)
    ensures ParseSegment(w1 + a + w2 + "-" + w3 + b + w4) == Range(DigitsValue(a), DigitsValue(b))
  {
    var t := a + w2 + "-" + w3 + b;
    MatchRangeText(a, w2, w3, b);
    RangeTrimmed(t, DigitsValue(a), DigitsValue(b));
    assert t[0] == a[0] && t[|t| - 1] == b[|b| - 1];
    SegmentPadded(w1, t, w4, Range(DigitsValue(a), DigitsValue(b)));
    Regroup(w1, a, w2, w3, b, w4);
  }

  /** A trimmed segment that matches the range pattern is that range. */
  lemma RangeTrimmed(t: string, lo: nat, hi: nat)
    requires MatchRange(t) == Some((lo, hi))
    ensures ParseTrimmed(t) == Range(lo, hi)
  {
  }

  /** Whitespace around a segment does not change what it says. */
  lemma SegmentPadded(w1: string, t: string, w2: string, seg: Segment)
    requires AllSpace(w1) && AllSpace(w2)
    requires t != [] && !IsSpace(t[0]) && !IsSpace(t[|t| - 1])
    requires ParseTrimmed(t) == seg
    ensures ParseSegment(w1 + t + w2) == seg
  {
    TrimPadded(w1, t, w2);
  }

  lemma Regroup(w1: string, a: string, w2: string, w3: string, b: string, w4: string)
    ensures w1 + a + w2 + "-" + w3 + b + w4 == w1 + (a + w2 + "-" + w3 + b) + w4
  {
  }
}

/**
 * The two markers the client looks for at the end of a streamed page in
 * src/features/extractor/hooks/use-extraction.ts: the usage sentinel
 * `\n<!--EXTRACT_USAGE:{"prompt_tokens":P,"completion_tokens":C}-->` and the
 * stream-error sentinel `<!--EXTRACT_STREAM_ERROR:message-->`, each followed
 * only by whitespace.
 *
 * Both regular expressions are anchored at the end of the text (`\s*$`), and
 * the character before `\s*` is `>`, which is not whitespace, so a match ends
 * exactly where the trailing whitespace begins. The definitions below walk
 * back from there; that gives the same match as the backtracking search.
 */
module Sentinels {
  import opened Wrappers
  import opened Text
  import opened RateLimiting

  const USAGE_OPEN: string := "\n<!--EXTRACT_USAGE:{\"prompt_tokens\":"
  const USAGE_SEP: string := ",\"completion_tokens\":"
  const USAGE_CLOSE: string := "}-->"
  const STREAM_ERROR_OPEN: string := "<!--EXTRACT_STREAM_ERROR:"
  const COMMENT_CLOSE: string := "-->"

  /** What `parseUsageSentinel` returns: the text without the sentinel and
      the usage it carried, if any. */
  datatype Cleaned = Cleaned(markdown: string, usage: Option<Usage>)

  /** `s` without `suffix`, when it ends with it. */
  function DropSuffix(s: string, suffix: string): (r: Option<string>)
    ensures r.Some? <==> EndsWith(s, suffix)
    ensures r.Some? ==> s == r.value + suffix
  {
    if EndsWith(s, suffix) then Some(s[..|s| - |suffix|]) else None
  }

  lemma DropSuffixOf(a: string, b: string)
    ensures DropSuffix(a + b, b) == Some(a)
  {
    assert (a + b)[|a + b| - |b|..] == b;
    assert (a + b)[..|a + b| - |b|] == a;
  }

  /** `s` cut before the longest run of digits that ends it. */
  function SplitDigits(s: string): (r: (string, string))
    ensures s == r.0 + r.1 && AllDigits(r.1)
    ensures r.0 == [] || !IsDigit(r.0[|r.0| - 1])
  {
    if s != [] && IsDigit(s[|s| - 1]) then
      var r := SplitDigits(s[..|s| - 1]);
      assert s == r.0 + (r.1 + [s[|s| - 1]]);
      (r.0, r.1 + [s[|s| - 1]])
    else (s, [])
  }

  /** A run of digits after a non-digit is the whole trailing run. */
  lemma {:induction false} SplitDigitsOf(a: string, d: string)
    requires AllDigits(d)
    requires a != [] && !IsDigit(a[|a| - 1])
    ensures SplitDigits(a + d) == (a, d)
  {
    if d == [] {
      assert a + d == a;
    } else {
      var d' := d[..|d| - 1];
      assert (a + d)[..|a + d| - 1] == a + d';
      SplitDigitsOf(a, d');
      assert d' + [d[|d| - 1]] == d;
    }
  }

  /** Where the usage pattern matches: the text before the match and the
      two digit groups as written. */
  datatype UsageMatch = UsageMatch(before: string, prompt: string, completion: string)

  /** The usage pattern's match. The two digit groups are each preceded by
      `:`, so each is the longest digit run before the literal after it. */
  function MatchUsage(raw: string): (m: Option<UsageMatch>)
  {
    var s1 := DropSuffix(TrimEnd(raw), USAGE_CLOSE);
    if s1.None? then None
    else
      var (s2, d2) := SplitDigits(s1.value);
      var s3 := DropSuffix(s2, USAGE_SEP);
      if d2 == [] || s3.None? then None
      else
        var (s4, d1) := SplitDigits(s3.value);
        var md := DropSuffix(s4, USAGE_OPEN);
        if d1 == [] || md.None? then None
        else Some(UsageMatch(md.value, d1, d2))
  }

  /** A match has two non-empty digit groups, and the text without its
      trailing whitespace is the part before the match followed by the
      sentinel those groups spell. */
  lemma MatchUsageShape(raw: string)
    ensures var m := MatchUsage(raw);
      m.Some? ==>
        && m.value.prompt != [] && AllDigits(m.value.prompt)
        && m.value.completion != [] && AllDigits(m.value.completion)
        && TrimEnd(raw) == m.value.before + UsageText(m.value.prompt, m.value.completion)
  {
    var m := MatchUsage(raw);
    if m.Some? {
      UsageTextParts(m.value.before, m.value.prompt, m.value.completion);
    }
  }

  /** `parseUsageSentinel(raw)`: the text before the match and the usage it
      carries, or the whole text and no usage. */
  function ParseUsageSentinel(raw: string): (r: Cleaned)
    ensures r.usage.None? <==> MatchUsage(raw).None?
    ensures r.usage.None? ==> r.markdown == raw
    ensures r.usage.Some? ==> r.markdown == MatchUsage(raw).value.before
  {
    match MatchUsage(raw)
    case None => Cleaned(raw, None)
    case Some(m) => Cleaned(m.before, Some(Usage(DigitsValue(m.prompt), DigitsValue(m.completion))))
  }

  /** The usage sentinel for `p` prompt and `c` completion tokens. */
  function UsageSentinel(p: nat, c: nat): string
  {
    USAGE_OPEN + NatToString(p) + USAGE_SEP + NatToString(c) + USAGE_CLOSE
  }

  /** The text the usage pattern matches, with the digit groups as written. */
  function UsageText(d1: string, d2: string): string
  {
    USAGE_OPEN + d1 + USAGE_SEP + d2 + USAGE_CLOSE
  }

  /** Any text followed by a usage sentinel and whitespace parses back to that
      text and the sentinel's numbers, leading zeros or not. */
  lemma UsageRoundTrip(md: string, d1: string, d2: string, ws: string)
    requires d1 != [] && AllDigits(d1) && d2 != [] && AllDigits(d2)
    requires AllSpace(ws)
    ensures ParseUsageSentinel(md + UsageText(d1, d2) + ws)
         == Cleaned(md, Some(Usage(DigitsValue(d1), DigitsValue(d2))))
  {
    var x4 := md + USAGE_OPEN;
    var x3 := x4 + d1;
    var x2 := x3 + USAGE_SEP;
    var x1 := x2 + d2;
    var body := x1 + USAGE_CLOSE;
    UsageTextParts(md, d1, d2);
    assert body[|body| - 1] == '>';
    TrimEndPadded(body, ws);
    DropSuffixOf(x1, USAGE_CLOSE);
    assert x2[|x2| - 1] == ':';
    SplitDigitsOf(x2, d2);
    DropSuffixOf(x3, USAGE_SEP);
    assert x4[|x4| - 1] == ':';
    SplitDigitsOf(x4, d1);
    DropSuffixOf(md, USAGE_OPEN);
    assert MatchUsage(md + UsageText(d1, d2) + ws) == Some(UsageMatch(md, d1, d2));
  }

  lemma UsageTextParts(md: string, d1: string, d2: string)
    ensures md + UsageText(d1, d2) == md + USAGE_OPEN + d1 + USAGE_SEP + d2 + USAGE_CLOSE
  {
  }

  /** A stream that ends with a usage sentinel is read back exactly. */
  lemma UsageSentinelRoundTrip(md: string, p: nat, c: nat, ws: string)
    requires AllSpace(ws)
    ensures ParseUsageSentinel(md + UsageSentinel(p, c) + ws) == Cleaned(md, Some(Usage(p, c)))
  {
    NatToStringValue(p);
    NatToStringValue(c);
    assert UsageSentinel(p, c) == UsageText(NatToString(p), NatToString(c));
    UsageRoundTrip(md, NatToString(p), NatToString(c), ws);
  }

  /** `raw.match(/<!--EXTRACT_STREAM_ERROR:(.+?)-->\s*$/)?.[1]`. The lazy
      group can only stop at the `-->` that ends the text, so the message
      runs from the leftmost opening that is followed by at least one
      character and no line break up to that `-->`. */
  function StreamErrorMessage(raw: string): (m: Option<string>)
  {
    var s := DropSuffix(TrimEnd(raw), COMMENT_CLOSE);
    if s.None? then None else FirstErrorFrom(s.value, 0)
  }

  /** A match's message is non-empty and on one line, and the text ends, up
      to trailing whitespace, with the sentinel that carries it. */
  lemma StreamErrorShape(raw: string)
    ensures var m := StreamErrorMessage(raw);
      m.Some? ==>
        && m.value != [] && OneLine(m.value)
        && EndsWith(TrimEnd(raw), STREAM_ERROR_OPEN + m.value + COMMENT_CLOSE)
  {
    var s := DropSuffix(TrimEnd(raw), COMMENT_CLOSE);
    if s.Some? {
      var m := FirstErrorFrom(s.value, 0);
      if m.Some? {
        EndsWithAppend(s.value, STREAM_ERROR_OPEN + m.value, COMMENT_CLOSE);
      }
    }
  }

  /** A text that ends with `x` still ends with `x` once `y` follows both. */
  lemma EndsWithAppend(s: string, x: string, y: string)
    requires EndsWith(s, x)
    ensures EndsWith(s + y, x + y)
  {
    assert (s + y)[|s + y| - |x + y|..] == s[|s| - |x|..] + y;
  }

  /** The message of the leftmost opening in `s` at `q` or later that is
      followed by a non-empty rest of `s` on one line. */
  function FirstErrorFrom(s: string, q: nat): (m: Option<string>)
    ensures m.Some? ==> m.value != [] && OneLine(m.value)
    ensures m.Some? ==> EndsWith(s, STREAM_ERROR_OPEN + m.value)
    decreases |s| - q
  {
    if q + |STREAM_ERROR_OPEN| >= |s| then None
    else if s[q..q + |STREAM_ERROR_OPEN|] == STREAM_ERROR_OPEN && OneLine(s[q + |STREAM_ERROR_OPEN|..]) then
      assert s[q..] == s[q..q + |STREAM_ERROR_OPEN|] + s[q + |STREAM_ERROR_OPEN|..];
      Some(s[q + |STREAM_ERROR_OPEN|..])
    else FirstErrorFrom(s, q + 1)
  }

  /** A text that does not end in `-->` (before trailing whitespace) carries
      no stream error. */
  lemma UnclosedHasNoStreamError(raw: string)
    requires !EndsWith(TrimEnd(raw), COMMENT_CLOSE)
    ensures StreamErrorMessage(raw) == None
  {
  }

  /** Nor does it carry a usage sentinel, whose closing `}-->` ends in `-->`. */
  lemma UnclosedHasNoUsage(raw: string)
    requires !EndsWith(TrimEnd(raw), COMMENT_CLOSE)
    ensures MatchUsage(raw) == None && ParseUsageSentinel(raw) == Cleaned(raw, None)
  {
    var t := TrimEnd(raw);
    assert !EndsWith(t, USAGE_CLOSE) by {
      assert |t| >= 4 ==> t[|t| - 3..] == t[|t| - 4..][1..];
    }
  }

  /** The stream-error sentinel carrying `msg`. */
  function StreamErrorSentinel(msg: string): string
  {
    STREAM_ERROR_OPEN + msg + COMMENT_CLOSE
  }

  /** No match starts at `q`: the opening is not there, or a line break lies
      between it and the end. */
  predicate NoMatchAt(s: string, q: nat)
  {
    q + |STREAM_ERROR_OPEN| < |s| ==>
      s[q..q + |STREAM_ERROR_OPEN|] != STREAM_ERROR_OPEN || !OneLine(s[q + |STREAM_ERROR_OPEN|..])
  }

  /** The search passes over positions where no match starts. */
  lemma {:induction false} SkipNoMatch(s: string, q: nat, k: nat)
    requires q <= k
    requires forall j :: q <= j < k ==> NoMatchAt(s, j)
    ensures FirstErrorFrom(s, q) == FirstErrorFrom(s, k)
    decreases k - q
  {
    if q < k {
      assert NoMatchAt(s, q);
      SkipNoMatch(s, q + 1, k);
    }
  }

  /** No position starts a match. */
  lemma {:induction false} NoMatchAnywhere(s: string, q: nat)
    requires forall j :: q <= j ==> NoMatchAt(s, j)
    ensures FirstErrorFrom(s, q) == None
    decreases |s| - q
  {
    if q + |STREAM_ERROR_OPEN| < |s| {
      assert NoMatchAt(s, q);
      NoMatchAnywhere(s, q + 1);
    }
  }

  lemma OpenIsOneLine()
    ensures OneLine(STREAM_ERROR_OPEN)
  {
  }

  /** A window that covers a line break is not the opening. */
  lemma NotOpenOverBreak(s: string, q: nat, b: nat)
    requires q <= b < q + |STREAM_ERROR_OPEN| <= |s|
    requires IsLineTerminator(s[b])
    ensures s[q..q + |STREAM_ERROR_OPEN|] != STREAM_ERROR_OPEN
  {
    OpenIsOneLine();
    assert s[q..q + |STREAM_ERROR_OPEN|][b - q] == s[b];
  }

  /** A line break at `b` rules out every opening before it. */
  lemma BreakBlocks(s: string, b: nat, j: nat)
    requires b < |s| && IsLineTerminator(s[b]) && j <= b
    ensures NoMatchAt(s, j)
  {
    var w := |STREAM_ERROR_OPEN|;
    if j + w < |s| {
      if b < j + w {
        NotOpenOverBreak(s, j, b);
      } else {
        assert s[j + w..][b - (j + w)] == s[b];
      }
    }
  }

  /** A text that is empty or ends a line, then a stream-error sentinel and
      whitespace, yields that sentinel's message. */
  lemma StreamErrorRoundTrip(md: string, msg: string, ws: string)
    requires md == [] || IsLineTerminator(md[|md| - 1])
    requires msg != [] && OneLine(msg)
    requires AllSpace(ws)
    ensures StreamErrorMessage(md + StreamErrorSentinel(msg) + ws) == Some(msg)
  {
    var s := md + STREAM_ERROR_OPEN + msg;
    var body := s + COMMENT_CLOSE;
    SentinelParts(md, msg);
    assert TrimEnd(body + ws) == body by {
      assert body[|body| - 1] == COMMENT_CLOSE[2];
      TrimEndPadded(body, ws);
    }
    DropSuffixOf(s, COMMENT_CLOSE);
    SentinelFound(md, msg);
  }

  lemma SentinelParts(md: string, msg: string)
    ensures md + StreamErrorSentinel(msg) == md + STREAM_ERROR_OPEN + msg + COMMENT_CLOSE
  {
  }

  /** The search, run over such a text, stops at the sentinel. */
  lemma SentinelFound(md: string, msg: string)
    requires md == [] || IsLineTerminator(md[|md| - 1])
    requires msg != [] && OneLine(msg)
    ensures FirstErrorFrom(md + STREAM_ERROR_OPEN + msg, 0) == Some(msg)
  {
    var s := md + STREAM_ERROR_OPEN + msg;
    var w := |STREAM_ERROR_OPEN|;
    forall j | 0 <= j < |md| ensures NoMatchAt(s, j) {
      assert s[|md| - 1] == md[|md| - 1];
      BreakBlocks(s, |md| - 1, j);
    }
    SkipNoMatch(s, 0, |md|);
    assert s[|md|..|md| + w] == STREAM_ERROR_OPEN;
    assert s[|md| + w..] == msg;
  }

  /** No character of the usage sentinel after its line break is `<`, except
      the first. */
  lemma UsageTailAngles(d1: string, d2: string, i: nat)
    requires AllDigits(d1) && AllDigits(d2)
    requires 1 < i < |UsageText(d1, d2)| - |COMMENT_CLOSE|
    ensures UsageText(d1, d2)[i] != '<'
  {
    var t := UsageText(d1, d2);
    var a := |USAGE_OPEN|;
    var b := a + |d1|;
    var c := b + |USAGE_SEP|;
    if i < a {
      assert t[i] == USAGE_OPEN[i];
      OpenTailNoAngle(i);
    } else if i < b {
      assert t[i] == d1[i - a];
    } else if i < c {
      assert t[i] == USAGE_SEP[i - b];
      SepNoAngle(i - b);
    } else if i < c + |d2| {
      assert t[i] == d2[i - c];
    } else {
      assert t[i] == '}';
    }
  }

  lemma OpenTailNoAngle(i: nat)
    requires 1 < i < |USAGE_OPEN|
    ensures USAGE_OPEN[i] != '<'
  {
  }

  lemma SepNoAngle(i: nat)
    requires i < |USAGE_SEP|
    ensures USAGE_SEP[i] != '<'
  {
  }

  /** A page that ends in a usage sentinel has no stream error: the line break
      that opens the sentinel cuts off any earlier opening, and the sentinel
      itself holds none. */
  lemma UsageIsNoStreamError(md: string, d1: string, d2: string, ws: string)
    requires AllDigits(d1) && AllDigits(d2)
    requires AllSpace(ws)
    ensures StreamErrorMessage(md + UsageText(d1, d2) + ws) == None
  {
    var t := UsageText(d1, d2);
    var body := md + t;
    var s := body[..|body| - |COMMENT_CLOSE|];
    assert body == s + COMMENT_CLOSE;
    assert body[|body| - 1] == '>';
    TrimEndPadded(body, ws);
    DropSuffixOf(s, COMMENT_CLOSE);
    NoOpeningInUsage(md, d1, d2);
  }

  /** The search finds no opening in a text that ends in a usage sentinel
      without its closing `-->`. */
  lemma NoOpeningInUsage(md: string, d1: string, d2: string)
    requires AllDigits(d1) && AllDigits(d2)
    ensures var body := md + UsageText(d1, d2);
      FirstErrorFrom(body[..|body| - |COMMENT_CLOSE|], 0) == None
  {
    var body := md + UsageText(d1, d2);
    var s := body[..|body| - |COMMENT_CLOSE|];
    forall j | 0 <= j ensures NoMatchAt(s, j) {
      NoMatchInUsage(md, d1, d2, j);
    }
    NoMatchAnywhere(s, 0);
  }

  lemma NoMatchInUsage(md: string, d1: string, d2: string, j: nat)
    requires AllDigits(d1) && AllDigits(d2)
    ensures var body := md + UsageText(d1, d2);
      NoMatchAt(body[..|body| - |COMMENT_CLOSE|], j)
  {
    var body := md + UsageText(d1, d2);
    var s := body[..|body| - |COMMENT_CLOSE|];
    var L := |md|;
    if j <= L {
      UsageBreak(md, d1, d2);
      BreakBlocks(s, L, j);
    } else if j == L + 1 {
      NoMatchAtUsageAngle(md, d1, d2);
    } else {
      NoMatchInUsageTail(md, d1, d2, j);
    }
  }

  /** The usage sentinel starts with a line break. */
  lemma UsageBreak(md: string, d1: string, d2: string)
    ensures var body := md + UsageText(d1, d2);
      |md| < |body| - |COMMENT_CLOSE| && body[..|body| - |COMMENT_CLOSE|][|md|] == '\n'
  {
    var t := UsageText(d1, d2);
    var body := md + t;
    assert body[|md|] == t[0];
  }

  /** The `<` that follows the line break opens a usage comment, not a
      stream-error one. */
  lemma NoMatchAtUsageAngle(md: string, d1: string, d2: string)
    ensures var body := md + UsageText(d1, d2);
      NoMatchAt(body[..|body| - |COMMENT_CLOSE|], |md| + 1)
  {
    var t := UsageText(d1, d2);
    var body := md + t;
    var s := body[..|body| - |COMMENT_CLOSE|];
    var j := |md| + 1;
    var w := |STREAM_ERROR_OPEN|;
    if j + w < |s| {
      assert s[j..j + w][12] == t[13] by {
        assert s[j..j + w][12] == s[j + 12];
      }
      assert t[13] == 'U';
    }
  }

  /** No later `<` in the usage sentinel starts an opening. */
  lemma NoMatchInUsageTail(md: string, d1: string, d2: string, j: nat)
    requires AllDigits(d1) && AllDigits(d2)
    requires |md| + 1 < j
    ensures var body := md + UsageText(d1, d2);
      NoMatchAt(body[..|body| - |COMMENT_CLOSE|], j)
  {
    var t := UsageText(d1, d2);
    var body := md + t;
    var s := body[..|body| - |COMMENT_CLOSE|];
    if j + |STREAM_ERROR_OPEN| < |s| {
      UnclosedAt(md, t, j - |md|);
      UsageTailAngles(d1, d2, j - |md|);
      NotOpenAt(s, j);
    }
  }

  /** The characters of `t` keep their place behind `md`, once the closing
      `-->` is cut off. */
  lemma UnclosedAt(md: string, t: string, i: nat)
    requires i < |t| - |COMMENT_CLOSE|
    ensures var body := md + t;
      body[..|body| - |COMMENT_CLOSE|][|md| + i] == t[i]
  {
  }

  /** An opening starts with `<`. */
  lemma NotOpenAt(s: string, j: nat)
    requires j + |STREAM_ERROR_OPEN| <= |s| && s[j] != '<'
    ensures s[j..j + |STREAM_ERROR_OPEN|] != STREAM_ERROR_OPEN
  {
    assert s[j..j + |STREAM_ERROR_OPEN|][0] == s[j];
  }
}

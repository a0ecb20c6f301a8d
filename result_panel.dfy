/**
 * The decisions of src/features/extractor/components/result-panel.tsx:
 * `stripMarkdownFence`, the per-page download name, the header label and
 * the retry button.
 *
 * `stripMarkdownFence` matches the trimmed text against an anchored regular
 * expression: three backticks, an optional `markdown` or `md`, whitespace
 * up to a line break, then the shortest body followed either by a closing
 * line break and three backticks with whitespace to the end, or by the end
 * itself. Here that match is computed directly: the two info words do not
 * share a prefix, so at most one of them can match; greedy whitespace gives
 * back characters until the last line break of the whitespace run; and the
 * shortest body stops at the closing fence only when the trimmed text ends
 * with one, since a trimmed text has no whitespace after it.
 */
module ResultPanel {
  import opened Wrappers
  import opened Text
  import opened Extraction

  const FENCE: string := "```"
  const CLOSING_FENCE: string := "\n```"

  /** The end of the run of whitespace that starts at `p`. */
  function SpaceRunEnd(t: string, p: nat): (q: nat)
    requires p <= |t|
    ensures p <= q <= |t| && (q == |t| || !IsSpace(t[q]))
    ensures forall i :: p <= i < q ==> IsSpace(t[i])
    decreases |t| - p
  {
    if p < |t| && IsSpace(t[p]) then SpaceRunEnd(t, p + 1) else p
  }

  /** The last line break in `t[p..q]`. */
  function LastNewline(t: string, p: nat, q: nat): (n: Option<nat>)
    requires p <= q <= |t|
    ensures n.Some? ==> p <= n.value < q && t[n.value] == '\n'
    ensures n.Some? ==> forall i :: n.value < i < q ==> t[i] != '\n'
    ensures n.None? ==> forall i :: p <= i < q ==> t[i] != '\n'
    decreases q - p
  {
    if q == p then None
    else if t[q - 1] == '\n' then Some(q - 1)
    else LastNewline(t, p, q - 1)
  }

  /** Where the optional info word after the opening backticks ends. */
  function InfoEnd(t: string): (p: nat)
    requires StartsWith(t, FENCE)
    ensures 3 <= p <= |t|
  {
    if StartsWith(t[3..], "markdown") then 11
    else if StartsWith(t[3..], "md") then 5
    else 3
  }

  /** Where the captured body starts, when the opening of the pattern
      matches. */
  function BodyStart(t: string): (b: Option<nat>)
    ensures b.Some? ==> StartsWith(t, FENCE) && 4 <= b.value <= |t| && t[b.value - 1] == '\n'
  {
    if !StartsWith(t, FENCE) then None
    else
      var p := InfoEnd(t);
      match LastNewline(t, p, SpaceRunEnd(t, p))
      case None => None
      case Some(n) => Some(n + 1)
  }

  /** The body the pattern captures in a trimmed text, when it matches. */
  function FenceBody(t: string): (r: Option<string>)
    ensures r.None? <==> BodyStart(t).None?
    ensures r.Some? ==>
      var b := BodyStart(t).value;
      && (EndsWith(t, CLOSING_FENCE) && |t| - 4 >= b ==> r.value == t[b..|t| - 4])
      && (!(EndsWith(t, CLOSING_FENCE) && |t| - 4 >= b) ==> r.value == t[b..])
  {
    match BodyStart(t)
    case None => None
    case Some(b) =>
      Some(if EndsWith(t, CLOSING_FENCE) && |t| - 4 >= b then t[b..|t| - 4] else t[b..])
  }

  /** `stripMarkdownFence(text)`: the captured body, or the text untouched
      when the pattern does not match. */
  function StripMarkdownFence(text: string): (r: string)
    ensures FenceBody(Trim(text)).None? ==> r == text
    ensures FenceBody(Trim(text)).Some? ==> r == FenceBody(Trim(text)).value
  {
    match FenceBody(Trim(text))
    case None => text
    case Some(body) => body
  }

  /** The info words the pattern accepts. */
  predicate IsInfo(lang: string)
  {
    lang == "" || lang == "md" || lang == "markdown"
  }

  /** An opening fence line followed by text that starts with a non-space:
      the body starts right after the line break. */
  lemma OpeningParsed(lang: string, rest: string)
    requires IsInfo(lang)
    requires rest == [] || !IsSpace(rest[0])
    ensures BodyStart(FENCE + lang + "\n" + rest) == Some(|lang| + 4)
  {
    var t := FENCE + lang + "\n" + rest;
    assert StartsWith(t, FENCE);
    var p := |lang| + 3;
    assert t[3..] == lang + "\n" + rest;
    assert InfoEnd(t) == p by {
      if lang == "" {
        assert t[3] == '\n';
      } else if lang == "md" {
        assert t[5] == '\n';
      } else {
        assert t[3..11] == "markdown";
      }
    }
    assert t[p] == '\n';
    assert SpaceRunEnd(t, p + 1) == p + 1 by {
      if p + 1 < |t| {
        assert t[p + 1] == rest[0];
      }
    }
    assert SpaceRunEnd(t, p) == p + 1;
    assert LastNewline(t, p, p + 1) == Some(p);
  }

  /** A closed fence around a body yields the body. */
  lemma ClosedBody(lang: string, body: string)
    requires IsInfo(lang)
    requires body != [] && !IsSpace(body[0])
    ensures FenceBody(FENCE + lang + "\n" + body + CLOSING_FENCE) == Some(body)
  {
    var t := FENCE + lang + "\n" + body + CLOSING_FENCE;
    assert t == FENCE + lang + "\n" + (body + CLOSING_FENCE);
    OpeningParsed(lang, body + CLOSING_FENCE);
    var b := |lang| + 4;
    assert t[|t| - 4..] == CLOSING_FENCE;
    assert t[b..|t| - 4] == body;
  }

  /** A fence that is never closed yields everything after its opening
      line. */
  lemma OpenBody(lang: string, body: string)
    requires IsInfo(lang)
    requires body != [] && !IsSpace(body[0])
    requires !EndsWith(body, CLOSING_FENCE)
    ensures FenceBody(FENCE + lang + "\n" + body) == Some(body)
  {
    var t := FENCE + lang + "\n" + body;
    OpeningParsed(lang, body);
    var b := |lang| + 4;
    assert t[b..] == body;
  }

  /** A fenced text loses its fence and the whitespace around it, whichever
      info word it carries. */
  lemma FencedRoundTrip(w1: string, lang: string, body: string, w2: string)
    requires AllSpace(w1) && AllSpace(w2) && IsInfo(lang)
    requires body != [] && !IsSpace(body[0])
    ensures StripMarkdownFence(w1 + FENCE + lang + "\n" + body + CLOSING_FENCE + w2) == body
  {
    var t := FENCE + lang + "\n" + body + CLOSING_FENCE;
    assert w1 + FENCE + lang + "\n" + body + CLOSING_FENCE + w2 == w1 + t + w2;
    assert t[0] == '`' && t[|t| - 1] == '`';
    TrimPadded(w1, t, w2);
    ClosedBody(lang, body);
  }

  /** A fence that is never closed still loses its opening line. */
  lemma UnclosedFence(w1: string, lang: string, body: string, w2: string)
    requires AllSpace(w1) && AllSpace(w2) && IsInfo(lang)
    requires body != [] && !IsSpace(body[0]) && !IsSpace(body[|body| - 1])
    requires !EndsWith(body, CLOSING_FENCE)
    ensures StripMarkdownFence(w1 + FENCE + lang + "\n" + body + w2) == body
  {
    var t := FENCE + lang + "\n" + body;
    assert w1 + FENCE + lang + "\n" + body + w2 == w1 + t + w2;
    assert t[0] == '`' && t[|t| - 1] == body[|body| - 1];
    TrimPadded(w1, t, w2);
    OpenBody(lang, body);
  }

  /** Text whose trimmed form does not open with three backticks is kept as
      it is, untrimmed. */
  lemma UnfencedKept(text: string)
    requires !StartsWith(Trim(text), FENCE)
    ensures StripMarkdownFence(text) == text
  {
  }

  /** `String(pageNumber).padStart(3, "0")` */
  function PageTag(pageNumber: int): string
  {
    PadStart(IntToString(pageNumber), 3, '0')
  }

  /** `${fileName || "extracted_page"}_${page}.md` */
  function DownloadName(fileName: string, pageNumber: int): (r: string)
    ensures StartsWith(r, if fileName == "" then "extracted_page" else fileName)
    ensures EndsWith(r, PageTag(pageNumber) + ".md")
  {
    var base := if fileName == "" then "extracted_page" else fileName;
    var tail := PageTag(pageNumber) + ".md";
    Affixes(base, "_", tail);
    base + "_" + tail
  }

  lemma Affixes(a: string, m: string, z: string)
    ensures StartsWith(a + m + z, a) && EndsWith(a + m + z, z)
  {
    assert (a + m + z)[..|a|] == a;
    assert (a + m + z)[|a + m|..] == z;
  }

  /** The page number in a download name is at least three digits and reads
      back as the number; pages below 1000 take exactly three. */
  lemma PageTagValue(n: nat)
    ensures AllDigits(PageTag(n)) && DigitsValue(PageTag(n)) == n
    ensures |PageTag(n)| >= 3
    ensures n < 1000 ==> |PageTag(n)| == 3
  {
    var s := NatToString(n);
    NatToStringValue(n);
    var z := if |s| < 3 then 3 - |s| else 0;
    assert PageTag(n) == seq(z, _ => '0') + s;
    LeadingZeros(z, s);
    if n < 1000 {
      DigitCount(n);
    }
  }

  /** A number below 1000 has at most three digits. */
  lemma DigitCount(n: nat)
    requires n < 1000
    ensures |NatToString(n)| <= 3
  {
    if n >= 10 {
      assert NatToString(n) == NatToString(n / 10) + [DigitChar(n % 10)];
      if n / 10 >= 10 {
        assert NatToString(n / 10) == NatToString(n / 100) + [DigitChar(n / 10 % 10)];
      }
    }
  }

  /** The panel's title: the plain title for a single page, else
      `第 N/T 页`. */
  function HeaderLabel(pageNumber: int, totalPages: int): (r: string)
    ensures r == "提取结果" <==> totalPages <= 1
  {
    if totalPages <= 1 then "提取结果"
    else "第 " + IntToString(pageNumber) + "/" + IntToString(totalPages) + " 页"
  }

  /** The retry button's label, when the button is shown. */
  function RetryLabel(status: PageStatus, hasRetry: bool): (r: Option<string>)
    ensures r.Some? <==> hasRetry && (status == Error || status == Skipped)
    ensures r == Some("提取此页") <==> hasRetry && status == Skipped
  {
    if hasRetry && (status == Error || status == Skipped) then
      Some(if status == Skipped then "提取此页" else "重试")
    else None
  }

  /** After a stop, every page that had not finished offers "提取此页" and
      every failed page still offers "重试". */
  lemma StoppedPagesOfferExtraction(rs: seq<PageResult>, i: int)
    requires 0 <= i < |rs|
    ensures rs[i].status in {Pending, Extracting, Skipped} ==>
      RetryLabel(StopResults(rs)[i].status, true) == Some("提取此页")
    ensures rs[i].status == Error ==> RetryLabel(StopResults(rs)[i].status, true) == Some("重试")
    ensures rs[i].status == Success ==> RetryLabel(StopResults(rs)[i].status, true).None?
  {
    StopSettles(rs);
  }
}

/**
 * The values and pure rules of src/features/extractor/hooks/use-extraction.ts:
 * the pipeline step, the per-page result, `stripExtension`,
 * `resolveRateLimit`, the classification `extractSinglePage` makes of a
 * response, the per-page bookkeeping of the extraction loop, `handleStop`'s
 * rewrite of the results and `totalPages`.
 *
 * The network is not modelled: what `fetch` and the stream reader deliver
 * for a page is the value `FetchOutcome`.
 */
module Extraction {
  import opened Wrappers
  import opened Text
  import opened SettingsTypes
  import opened ConfigStore
  import opened RateLimiting
  import opened Sentinels

  datatype Step = Upload | Select | Extract | Done

  datatype FileType = Pdf | Docx | Image

  datatype PageStatus = Pending | Extracting | Success | Error | Skipped

  /** The result shown for one selected page; `None` stands for a field left
      undefined. */
  datatype PageResult = PageResult(
    imageIndex: int,
    pageNumber: int,
    status: PageStatus,
    markdown: string,
    errorMessage: Option<string>,
    usage: Option<Usage>)

  /** The index of the last `.` in `s`. */
  function LastDot(s: string): (k: Option<nat>)
    ensures k.Some? ==> k.value < |s| && s[k.value] == '.' && '.' !in s[k.value + 1..]
    ensures k.None? ==> '.' !in s
  {
    if s == [] then None
    else if s[|s| - 1] == '.' then Some(|s| - 1)
    else
      var k := LastDot(s[..|s| - 1]);
      assert k.Some? ==> s[k.value + 1..] == s[..|s| - 1][k.value + 1..] + [s[|s| - 1]];
      assert k.None? ==> s == s[..|s| - 1] + [s[|s| - 1]];
      k
  }

  /** `name.replace(/\.[^.]+$/, "")`. A match needs a dot followed by at
      least one character and no other dot up to the end, so only the last
      dot can start one. */
  function StripExtension(name: string): (r: string)
    ensures |r| <= |name| && r == name[..|r|]
    ensures r != name ==> |r| + 1 < |name| && name[|r|] == '.' && '.' !in name[|r| + 1..]
  {
    match LastDot(name)
    case Some(k) => if k + 1 < |name| then name[..k] else name
    case None => name
  }

  /** A name with an extension loses exactly the extension. */
  lemma StripExtensionOf(base: string, ext: string)
    requires ext != [] && '.' !in ext
    ensures StripExtension(base + "." + ext) == base
  {
    var name := base + "." + ext;
    assert name[|base|] == '.';
    assert name[|base| + 1..] == ext;
  }

  /** A name without a dot, or ending in one, is kept whole. */
  lemma StripExtensionKeeps(name: string)
    requires '.' !in name || (name != [] && name[|name| - 1] == '.')
    ensures StripExtension(name) == name
  {
  }

  /** `resolveRateLimit(activeConfig, envConfig)`: the active configuration's
      limit if it enables something, else the server's if it does, else
      none. */
  function ResolveRateLimit(active: Option<ModelConfig>, env: Option<EnvConfig>): (r: Option<RateLimitConfig>)
  {
    if active.Some? && HasRateLimitEnabled(active.value.rateLimit) then active.value.rateLimit
    else if env.Some? && HasRateLimitEnabled(env.value.rateLimit) then env.value.rateLimit
    else None
  }

  /** The limit chosen is always an enabled one; the active configuration's
      wins; there is none exactly when neither side enables a limit. */
  lemma ResolveRateLimitSpec(active: Option<ModelConfig>, env: Option<EnvConfig>)
    ensures var r := ResolveRateLimit(active, env);
      && (r.Some? ==> HasRateLimitEnabled(r))
      && (r.Some? ==> (active.Some? && r == active.value.rateLimit) || (env.Some? && r == env.value.rateLimit))
      && (active.Some? && HasRateLimitEnabled(active.value.rateLimit) ==> r == active.value.rateLimit)
      && (r.None? <==>
            (!(active.Some? && HasRateLimitEnabled(active.value.rateLimit))
             && !(env.Some? && HasRateLimitEnabled(env.value.rateLimit))))
  {
  }

  /** A quota of zero, or a request window on its own, limits nothing, so the
      server's limit is used instead. */
  lemma ZeroModelLimitFallsBack(active: ModelConfig, env: EnvConfig, window: Option<int>)
    requires active.rateLimit == Some(RateLimitConfig(Some(0), window, Some(0), None))
    requires HasRateLimitEnabled(env.rateLimit)
    ensures ResolveRateLimit(Some(active), Some(env)) == env.rateLimit
  {
  }

  /** What became of a page's request, as far as the client can tell. */
  datatype FetchOutcome =
      /** A non-OK status with its body; `jsonError` is the body's truthy
          `error` field, as text, when the body parses as JSON. */
    | NotOk(body: string, jsonError: Option<string>)
      /** An OK response whose stream was read to the end. */
    | Streamed(body: string)
      /** An exception other than an abort after `partial` was streamed;
          `message` is its `message` when it is an `Error`. */
    | Failed(partial: string, message: Option<string>)
      /** The request was aborted after `partial` was streamed. */
    | Aborted(partial: string)

  /** `extractSinglePage` either returns a result or rethrows an abort. */
  datatype SingleOutcome = Returned(result: PageResult) | AbortThrown

  /** `第 ${pageNumber} 页提取失败: ${detail}` */
  function PageError(pageNumber: int, detail: string): string
  {
    "第 " + IntToString(pageNumber) + " 页提取失败: " + detail
  }

  function ErrorResult(imageIndex: int, pageNumber: int, detail: string): (r: PageResult)
  {
    PageResult(imageIndex, pageNumber, Error, "", Some(PageError(pageNumber, detail)), None)
  }

  /** How `extractSinglePage` classifies a response. */
  function ExtractSinglePage(imageIndex: int, pageNumber: int, outcome: FetchOutcome): (o: SingleOutcome)
    ensures o.AbortThrown? <==> outcome.Aborted?
    ensures o.Returned? ==> o.result.imageIndex == imageIndex && o.result.pageNumber == pageNumber
    ensures o.Returned? ==> o.result.status == Success || o.result.status == Error
    ensures o.Returned? && o.result.status == Error ==>
      (o.result.markdown == "" && o.result.usage.None? && o.result.errorMessage.Some?
       && StartsWith(o.result.errorMessage.value, "第 " + IntToString(pageNumber) + " 页提取失败: "))
    ensures o.Returned? && o.result.status == Success ==> outcome.Streamed? && o.result.errorMessage.None?
  {
    match outcome
    case NotOk(body, jsonError) =>
      var detail := if jsonError.Some? && jsonError.value != "" then jsonError.value else body;
      Returned(ErrorResult(imageIndex, pageNumber, detail))
    case Streamed(body) =>
      (match StreamErrorMessage(body)
       case Some(msg) => Returned(ErrorResult(imageIndex, pageNumber, msg))
       case None =>
         var cleaned := ParseUsageSentinel(body);
         Returned(PageResult(imageIndex, pageNumber, Success, cleaned.markdown, None, cleaned.usage)))
    case Failed(_, message) =>
      Returned(ErrorResult(imageIndex, pageNumber, message.GetOr("网络错误")))
    case Aborted(_) => AbortThrown
  }

  /** The text `onStream` last reported: everything read before the outcome. */
  function StreamedText(outcome: FetchOutcome): string
  {
    match outcome
    case NotOk(_, _) => ""
    case Streamed(body) => body
    case Failed(partial, _) => partial
    case Aborted(partial) => partial
  }

  /** A page whose stream was read to the end and ends with a usage
      sentinel is a success carrying the page's text and the usage the
      sentinel reports. */
  lemma StreamedPageSucceeds(imageIndex: int, pageNumber: int, md: string, p: nat, c: nat, ws: string)
    requires AllSpace(ws)
    ensures ExtractSinglePage(imageIndex, pageNumber, Streamed(md + UsageSentinel(p, c) + ws))
         == Returned(PageResult(imageIndex, pageNumber, Success, md, None, Some(Usage(p, c))))
  {
    NatToStringValue(p);
    NatToStringValue(c);
    assert UsageSentinel(p, c) == UsageText(NatToString(p), NatToString(c));
    UsageIsNoStreamError(md, NatToString(p), NatToString(c), ws);
    UsageSentinelRoundTrip(md, p, c, ws);
  }

  /** A stream-error sentinel at the end turns the page into an error with
      the sentinel's message, whatever was streamed before it. */
  lemma BrokenStreamFails(imageIndex: int, pageNumber: int, md: string, msg: string, ws: string)
    requires md == [] || IsLineTerminator(md[|md| - 1])
    requires msg != [] && OneLine(msg)
    requires AllSpace(ws)
    ensures ExtractSinglePage(imageIndex, pageNumber, Streamed(md + StreamErrorSentinel(msg) + ws))
         == Returned(ErrorResult(imageIndex, pageNumber, msg))
  {
    StreamErrorRoundTrip(md, msg, ws);
  }

  /** A plain stream without sentinels is a success carrying the stream as
      it is and no usage. */
  lemma PlainStreamSucceeds(imageIndex: int, pageNumber: int, body: string)
    requires !EndsWith(TrimEnd(body), COMMENT_CLOSE)
    ensures ExtractSinglePage(imageIndex, pageNumber, Streamed(body))
         == Returned(PageResult(imageIndex, pageNumber, Success, body, None, None))
  {
    UnclosedHasNoStreamError(body);
    UnclosedHasNoUsage(body);
  }

  /** A non-OK response reports the JSON `error` when it has a non-empty one,
      otherwise the raw body. */
  lemma RejectedPageReportsDetail(imageIndex: int, pageNumber: int, body: string, jsonError: Option<string>)
    ensures var o := ExtractSinglePage(imageIndex, pageNumber, NotOk(body, jsonError));
      && o.Returned? && o.result.status == Error
      && (jsonError.Some? && jsonError.value != "" ==> o.result.errorMessage == Some(PageError(pageNumber, jsonError.value)))
      && (jsonError.None? || jsonError.value == "" ==> o.result.errorMessage == Some(PageError(pageNumber, body)))
  {
  }

  /** The pending entry made for a selected image. */
  function InitialResult(imgIdx: int): (r: PageResult)
  {
    PageResult(imgIdx, imgIdx + 1, Pending, "", None, None)
  }

  /** `selectedIndices.map(…)`: one pending entry per selected index, in the
      order given, numbered from 1. */
  function InitialResults(selected: seq<int>): (r: seq<PageResult>)
    ensures |r| == |selected|
    ensures forall j :: 0 <= j < |r| ==>
      r[j].status == Pending && r[j].imageIndex == selected[j] && r[j].pageNumber == selected[j] + 1
  {
    seq(|selected|, j requires 0 <= j < |selected| => InitialResult(selected[j]))
  }

  /** `images[imgIdx]` when it is a non-empty string. */
  function ImageAt(images: seq<string>, imgIdx: int): (img: Option<string>)
    ensures img.Some? <==> 0 <= imgIdx < |images| && images[imgIdx] != ""
    ensures img.Some? ==> img.value == images[imgIdx]
  {
    if 0 <= imgIdx < |images| && images[imgIdx] != "" then Some(images[imgIdx]) else None
  }

  /** The last word on a page's slot in one pass of the loop that got past
      the abort checks: marked extracting, and then, when its image exists
      and the request was not aborted, what `extractSinglePage` returned. */
  function SlotAfter(images: seq<string>, imgIdx: int, response: FetchOutcome): (r: PageResult)
    ensures r.imageIndex == imgIdx && r.pageNumber == imgIdx + 1
    ensures r.status == Extracting <==> ImageAt(images, imgIdx).None? || response.Aborted?
    ensures r.status != Pending && r.status != Skipped
  {
    match ImageAt(images, imgIdx)
    case None => InitialResult(imgIdx).(status := Extracting)
    case Some(_) =>
      match ExtractSinglePage(imgIdx, imgIdx + 1, response)
      case AbortThrown => InitialResult(imgIdx).(status := Extracting)
      case Returned(r) => r
  }

  /** The whole result list once the first `k` passes are through. */
  function Progress(images: seq<string>, selected: seq<int>, responses: seq<FetchOutcome>, k: nat): (r: seq<PageResult>)
    requires k <= |selected| <= |responses|
    ensures |r| == |selected|
  {
    seq(|selected|, j requires 0 <= j < |selected| =>
      if j < k then SlotAfter(images, selected[j], responses[j]) else InitialResult(selected[j]))
  }

  /** Before the first pass every page is pending; a pass changes its own
      slot and no other. */
  lemma ProgressSteps(images: seq<string>, selected: seq<int>, responses: seq<FetchOutcome>, k: nat)
    requires k < |selected| <= |responses|
    ensures Progress(images, selected, responses, 0) == InitialResults(selected)
    ensures Progress(images, selected, responses, k + 1)
         == Progress(images, selected, responses, k)[k := SlotAfter(images, selected[k], responses[k])]
  {
  }

  /** Whether a pass sent a request that came back (success or error):
      exactly then the rate limiter records it. */
  predicate Settled(images: seq<string>, imgIdx: int, response: FetchOutcome)
  {
    ImageAt(images, imgIdx).Some? && !response.Aborted?
  }

  /** The records a rate limiter receives from the first `k` passes, stamped
      with the clock in `clocks` when each response was in. */
  function Records(images: seq<string>, selected: seq<int>, responses: seq<FetchOutcome>,
                   clocks: seq<int>, k: nat): seq<RequestRecord>
    requires k <= |selected| <= |responses| && |responses| == |clocks|
  {
    if k == 0 then []
    else
      Records(images, selected, responses, clocks, k - 1) +
      (if Settled(images, selected[k - 1], responses[k - 1]) then
         [Stamp(clocks[k - 1], SlotAfter(images, selected[k - 1], responses[k - 1]).usage)]
       else [])
  }

  /** How many of `rs` ended in success or error. */
  function CountSettled(rs: seq<PageResult>): nat
  {
    if rs == [] then 0
    else CountSettled(rs[..|rs| - 1]) + (if rs[|rs| - 1].status in {Success, Error} then 1 else 0)
  }

  /** The limiter sees one record per page that ended in success or error,
      failed pages included; a page whose image was missing or whose request
      was aborted leaves none. */
  lemma {:induction false} RecordsCountSettled(images: seq<string>, selected: seq<int>, responses: seq<FetchOutcome>,
                                               clocks: seq<int>, k: nat)
    requires k <= |selected| <= |responses| && |responses| == |clocks|
    ensures |Records(images, selected, responses, clocks, k)| == CountSettled(Progress(images, selected, responses, k)[..k])
  {
    if k > 0 {
      RecordsCountSettled(images, selected, responses, clocks, k - 1);
      var p := Progress(images, selected, responses, k);
      var q := Progress(images, selected, responses, k - 1);
      assert p[..k][..k - 1] == q[..k - 1];
      var s := SlotAfter(images, selected[k - 1], responses[k - 1]);
      assert p[..k][k - 1] == s;
      assert s.status in {Success, Error} <==> Settled(images, selected[k - 1], responses[k - 1]);
    }
  }

  /** `handleStop` on one entry: pending and extracting become skipped. */
  function SkipUnfinished(r: PageResult): PageResult
  {
    if r.status == Pending || r.status == Extracting then r.(status := Skipped) else r
  }

  /** `current.map(…)` in `handleStop`. */
  function StopResults(rs: seq<PageResult>): (out: seq<PageResult>)
    ensures |out| == |rs|
  {
    seq(|rs|, i requires 0 <= i < |rs| => SkipUnfinished(rs[i]))
  }

  /** After a stop nothing is pending or extracting, finished pages are
      untouched, and the unfinished ones differ only in their status. */
  lemma StopSettles(rs: seq<PageResult>)
    ensures forall i :: 0 <= i < |rs| ==>
      StopResults(rs)[i].status != Pending && StopResults(rs)[i].status != Extracting
    ensures forall i :: 0 <= i < |rs| && rs[i].status in {Success, Error, Skipped} ==> StopResults(rs)[i] == rs[i]
    ensures forall i :: 0 <= i < |rs| ==> StopResults(rs)[i].(status := rs[i].status) == rs[i]
    ensures CountSettled(StopResults(rs)) == CountSettled(rs)
  {
    StopKeepsCount(rs);
  }

  lemma {:induction false} StopKeepsCount(rs: seq<PageResult>)
    ensures CountSettled(StopResults(rs)) == CountSettled(rs)
  {
    if rs != [] {
      var s := StopResults(rs);
      assert s[..|s| - 1] == StopResults(rs[..|rs| - 1]);
      StopKeepsCount(rs[..|rs| - 1]);
    }
  }

  /** `totalPages`: the largest of the number of images, the number of
      results and, while extracting, the page being worked on. */
  function TotalPages(imageCount: nat, resultCount: nat, isExtracting: bool, extractingIdx: int): (t: int)
    ensures t >= imageCount && t >= resultCount && (isExtracting ==> t >= extractingIdx + 1)
    ensures t == imageCount || t == resultCount || (isExtracting && t == extractingIdx + 1)
  {
    var m := if imageCount > resultCount then imageCount else resultCount;
    var e := if isExtracting then extractingIdx + 1 else 0;
    if e > m then e else m
  }

  /** The result of the DOCX conversion's JSON or the error it threw. */
  datatype DocxData = DocxData(markdown: string, messages: seq<string>)

  datatype DocxReply =
      /** The parsed `DocxApiResponse`. */
    | DocxJson(success: bool, data: Option<DocxData>, error: Option<string>)
      /** `fetch` or `response.json()` threw; `message` as for `Failed`. */
    | DocxThrown(message: Option<string>)

  /** The one entry `handleDocxUploaded` leaves. */
  function DocxResult(reply: DocxReply): (r: PageResult)
    ensures r.imageIndex == 0 && r.pageNumber == 1
    ensures r.status == Success <==> reply.DocxJson? && reply.success && reply.data.Some?
    ensures r.status == Success ==> r.markdown == reply.data.value.markdown && r.errorMessage.None?
    ensures r.status != Success ==>
      (r.status == Error && r.markdown == "" && r.errorMessage.Some?
       && StartsWith(r.errorMessage.value, "DOCX 转换失败: "))
  {
    match reply
    case DocxJson(success, data, error) =>
      if !success || data.None? then
        PageResult(0, 1, Error, "", Some("DOCX 转换失败: " + error.GetOr("未知错误")), None)
      else PageResult(0, 1, Success, data.value.markdown, None, None)
    case DocxThrown(message) =>
      PageResult(0, 1, Error, "", Some("DOCX 转换失败: " + message.GetOr("网络错误")), None)
  }
}

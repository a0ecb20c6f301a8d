/**
 * The state of the `useExtraction` hook in
 * src/features/extractor/hooks/use-extraction.ts and the handlers that
 * change it: starting a batch, stopping it, retrying one page, the DOCX
 * path, the uploads and the reset.
 *
 * React state and the refs that mirror it are one field each. The batch
 * loop is asynchronous in the source; here it runs in one call, driven by
 * one `PageEvent` per selected page that says what the clock read, how the
 * rate-limit sleep ended and what the request came back with. An abort only
 * ever arrives while the loop awaits (the sleep or the request): the loop
 * then returns at once, and the handler that aborted it (`Stop`, `Reset`,
 * an upload) is a separate call on the state the loop left behind.
 */
module ExtractionHook {
  import opened Wrappers
  import opened SettingsTypes
  import opened ConfigStore
  import opened RateLimiting
  import opened Extraction

  /** How `sleep(waitMs, signal)` ended: the timer fired, or the signal
      aborted it. */
  datatype SleepOutcome = Slept | SleepAborted

  /** What the outside world did during one pass of the loop. */
  datatype PageEvent = PageEvent(
    /** `Date.now()` when the limiter is asked for its wait. */
    waitClock: int,
    sleep: SleepOutcome,
    response: FetchOutcome,
    /** `Date.now()` when the limiter records the request. */
    recordClock: int)

  /** How a call of `startExtraction` ended. */
  datatype Run =
    | ConfigMissing
    | Finished
      /** The rate-limit sleep of pass `at` was aborted. */
    | InterruptedInWait(at: nat)
      /** The request of pass `at` was aborted. */
    | InterruptedInFetch(at: nat)

  /** How a call of `retryPage` ended. */
  datatype RetryRun = RetryConfigMissing | NoSuchPage | ImageMissing | Retried

  function Responses(events: seq<PageEvent>): (rs: seq<FetchOutcome>)
    ensures |rs| == |events| && forall j :: 0 <= j < |events| ==> rs[j] == events[j].response
  {
    seq(|events|, j requires 0 <= j < |events| => events[j].response)
  }

  function RecordClocks(events: seq<PageEvent>): (cs: seq<int>)
    ensures |cs| == |events| && forall j :: 0 <= j < |events| ==> cs[j] == events[j].recordClock
  {
    seq(|events|, j requires 0 <= j < |events| => events[j].recordClock)
  }

  /** How many passes got as far as changing their page's slot. */
  function Passes(run: Run, n: nat): nat
  {
    match run
    case ConfigMissing => 0
    case Finished => n
    case InterruptedInWait(at) => at
    case InterruptedInFetch(at) => at + 1
  }

  /** Whether pass `j` sends a request that is aborted. */
  predicate AbortsInFetch(images: seq<string>, selected: seq<int>, events: seq<PageEvent>, j: nat)
    requires j < |selected| <= |events|
  {
    ImageAt(images, selected[j]).Some? && events[j].response.Aborted?
  }

  /** The limiter's `records` when pass `k` begins. Each earlier pass pruned
      them when it asked for its wait and, when its request came back,
      pushed its record and pruned them again. */
  function LimiterRecords(config: RateLimitConfig, images: seq<string>, selected: seq<int>,
                          events: seq<PageEvent>, k: nat): seq<RequestRecord>
    requires k <= |selected| <= |events|
  {
    if k == 0 then []
    else
      var responses, clocks := Responses(events), RecordClocks(events);
      var waited := Prune(LimiterRecords(config, images, selected, events, k - 1), events[k - 1].waitClock, MaxAge(config));
      if Settled(images, selected[k - 1], responses[k - 1]) then
        Prune(waited + [Stamp(clocks[k - 1], SlotAfter(images, selected[k - 1], responses[k - 1]).usage)],
              clocks[k - 1], MaxAge(config))
      else waited
  }

  /** What `limiter.getWaitTimeMs()` answers at the head of pass `k`. */
  function PassWait(config: RateLimitConfig, images: seq<string>, selected: seq<int>,
                    events: seq<PageEvent>, k: nat): int
    requires k < |selected| <= |events|
  {
    var e := events[k];
    WaitTime(Prune(LimiterRecords(config, images, selected, events, k), e.waitClock, MaxAge(config)),
             config, e.waitClock)
  }

  /** Whether pass `k` is cut short in its rate-limit sleep: there is a
      limiter, it asks for a wait, and the sleep is aborted. */
  predicate AbortsInWait(rl: Option<RateLimitConfig>, images: seq<string>, selected: seq<int>,
                         events: seq<PageEvent>, k: nat)
    requires k < |selected| <= |events|
  {
    rl.Some? && PassWait(rl.value, images, selected, events, k) > 0 && events[k].sleep == SleepAborted
  }

  /** How pass `k` ends the loop, if it does: in its sleep or in its
      request. */
  function PassStop(rl: Option<RateLimitConfig>, images: seq<string>, selected: seq<int>,
                    events: seq<PageEvent>, k: nat): (r: Option<Run>)
    requires k < |selected| <= |events|
    ensures r.Some? ==> r.value == InterruptedInWait(k) || r.value == InterruptedInFetch(k)
  {
    if AbortsInWait(rl, images, selected, events, k) then Some(InterruptedInWait(k))
    else if AbortsInFetch(images, selected, events, k) then Some(InterruptedInFetch(k))
    else None
  }

  /** How each pass would end the loop, pass by pass. */
  function PassStops(rl: Option<RateLimitConfig>, images: seq<string>, selected: seq<int>,
                     events: seq<PageEvent>): (ps: seq<Option<Run>>)
    requires |selected| <= |events|
    ensures |ps| == |selected|
  {
    seq(|selected|, j requires 0 <= j < |selected| => PassStop(rl, images, selected, events, j))
  }

  /** The position of the first stop in `stops` from `k` on, or `|stops|`
      when there is none. */
  function FirstStopAt(stops: seq<Option<Run>>, k: nat): (at: nat)
    requires k <= |stops|
    decreases |stops| - k
    ensures k <= at <= |stops| && (at < |stops| ==> stops[at].Some?)
  {
    if k == |stops| || stops[k].Some? then k else FirstStopAt(stops, k + 1)
  }

  /** There is no stop between `k` and what `FirstStopAt` finds. */
  lemma {:induction false} FirstStopAtSpec(stops: seq<Option<Run>>, k: nat)
    requires k <= |stops|
    decreases |stops| - k
    ensures forall j :: k <= j < FirstStopAt(stops, k) ==> stops[j].None?
  {
    if k < |stops| && stops[k].None? {
      FirstStopAtSpec(stops, k + 1);
    }
  }

  /** The run a list of per-pass stops gives: its first stop, or
      `Finished` when there is none. */
  function FirstStop(stops: seq<Option<Run>>): Run
  {
    var at := FirstStopAt(stops, 0);
    if at == |stops| then Finished else stops[at].value
  }

  /** When every stop in the list is an interruption of its own pass, the
      run finishes exactly when there is no stop, and is otherwise the stop
      of the first pass that has one. */
  lemma FirstStopSpec(stops: seq<Option<Run>>)
    requires forall j :: 0 <= j < |stops| && stops[j].Some? ==>
      (stops[j].value.InterruptedInWait? || stops[j].value.InterruptedInFetch?) && stops[j].value.at == j
    ensures var r := FirstStop(stops);
      && (r.Finished? <==> forall j :: 0 <= j < |stops| ==> stops[j].None?)
      && (!r.Finished? ==>
            && (r.InterruptedInWait? || r.InterruptedInFetch?) && r.at < |stops| && stops[r.at] == Some(r)
            && forall j :: 0 <= j < r.at ==> stops[j].None?)
  {
    FirstStopAtSpec(stops, 0);
  }

  /** One pass of the loop, seen from the stops: a pass with no stop hands
      the search for the first stop on to the next pass, and one with a stop
      is the first. */
  lemma FirstStopStep(stops: seq<Option<Run>>, i: nat)
    requires i < |stops| && FirstStopAt(stops, 0) == FirstStopAt(stops, i)
    ensures stops[i].None? ==> FirstStopAt(stops, 0) == FirstStopAt(stops, i + 1)
    ensures stops[i].None? && i + 1 == |stops| ==> FirstStop(stops) == Finished
    ensures stops[i].Some? ==> FirstStop(stops) == stops[i].value
  {
  }

  /** How the passes of a batch end: at the first one that stops the loop,
      or `Finished` when none does. */
  function Outcome(rl: Option<RateLimitConfig>, images: seq<string>, selected: seq<int>,
                   events: seq<PageEvent>): Run
    requires |selected| <= |events|
  {
    FirstStop(PassStops(rl, images, selected, events))
  }

  /** A pass stops the loop in its sleep exactly when there is a limiter,
      it asks for a wait and the sleep is aborted; in its request exactly
      when it got past the sleep and the request was aborted. */
  lemma PassStopSpec(rl: Option<RateLimitConfig>, images: seq<string>, selected: seq<int>,
                     events: seq<PageEvent>, k: nat)
    requires k < |selected| <= |events|
    ensures PassStop(rl, images, selected, events, k) == Some(InterruptedInWait(k)) <==>
      rl.Some? && PassWait(rl.value, images, selected, events, k) > 0 && events[k].sleep == SleepAborted
    ensures PassStop(rl, images, selected, events, k) == Some(InterruptedInFetch(k)) <==>
      !AbortsInWait(rl, images, selected, events, k)
      && ImageAt(images, selected[k]).Some? && events[k].response.Aborted?
    ensures PassStop(rl, images, selected, events, k).None? <==>
      !AbortsInWait(rl, images, selected, events, k) && !AbortsInFetch(images, selected, events, k)
  {
  }

  /** The configuration of a batch's limiter, if it has one. */
  function LimitOf(limiter: RateLimiter?): Option<RateLimitConfig>
  {
    if limiter == null then None else Some(limiter.config)
  }

  /** The pre-retry entry `retryPage` shows while the request runs. */
  function RetryPending(target: PageResult): (r: PageResult)
    ensures r.imageIndex == target.imageIndex && r.pageNumber == target.pageNumber
    ensures r.status == Extracting && r.markdown == "" && r.errorMessage.None? && r.usage == target.usage
  {
    target.(status := Extracting, markdown := "", errorMessage := None)
  }

  /** What an aborted retry leaves: the pre-retry entry marked as failed. */
  function RetryInterrupted(target: PageResult): (r: PageResult)
    ensures r.(status := target.status, errorMessage := target.errorMessage) == target
    ensures r.status == Error && r.errorMessage == Some("重试被中断")
  {
    target.(status := Error, errorMessage := Some("重试被中断"))
  }

  class Extractor {
    var step: Step
    var fileType: FileType
    var fileName: string
    var extractionImages: seq<string>
    var pageResults: seq<PageResult>
    var extractingIdx: int
    var isExtracting: bool
    var streamingMarkdown: string
    var rateLimitWaitUntil: Option<int>

    /** The hook's initial state. */
    constructor ()
      ensures step == Upload && fileType == Pdf && fileName == ""
      ensures extractionImages == [] && pageResults == [] && extractingIdx == 0
      ensures !isExtracting && streamingMarkdown == "" && rateLimitWaitUntil.None?
    {
      step := Upload;
      fileType := Pdf;
      fileName := "";
      extractionImages := [];
      pageResults := [];
      extractingIdx := 0;
      isExtracting := false;
      streamingMarkdown := "";
      rateLimitWaitUntil := None;
    }

    /** The state a batch shows once its loop has ended with `run`. A
        finished batch is done. A batch interrupted in pass `at` is still
        extracting page `at`: in the sleep, the wait the limiter asked for
        is still shown and no text has streamed; in the request, no wait is
        shown and the streamed text is what had arrived. */
    predicate Ended(run: Run, images: seq<string>, selected: seq<int>, events: seq<PageEvent>,
                    limiter: RateLimiter?)
      requires |events| == |selected|
      reads this
    {
      match run
      case ConfigMissing => false
      case Finished =>
        && step == Done && !isExtracting && streamingMarkdown == "" && rateLimitWaitUntil.None?
        && extractingIdx == (if selected == [] then 0 else |selected| - 1)
      case InterruptedInWait(at) =>
        && at < |selected| && step == Extract && isExtracting && extractingIdx == at
        && streamingMarkdown == "" && rateLimitWaitUntil.Some? && rateLimitWaitUntil.value > events[at].waitClock
      case InterruptedInFetch(at) =>
        && at < |selected| && step == Extract && isExtracting && extractingIdx == at
        && streamingMarkdown == StreamedText(events[at].response) && rateLimitWaitUntil.None?
    }

    /** `startExtraction(images, selectedIndices)`. Without any configuration
        nothing changes. Otherwise every selected page starts out pending and
        the passes run in order until one is interrupted: in its rate-limit
        sleep exactly when the limiter (present exactly when a limit is
        resolved) asks for a wait and the sleep is aborted, in its request
        exactly when that request is aborted. Pass `i` changes slot `i` only,
        and the limiter has recorded one entry per request that came back. */
    method StartExtraction(images: seq<string>, selected: seq<int>, hasAnyConfig: bool,
                           activeConfig: Option<ModelConfig>, envConfig: Option<EnvConfig>,
                           events: seq<PageEvent>)
      returns (run: Run, limiter: RateLimiter?)
      requires |events| == |selected|
      modifies this
      ensures run.ConfigMissing? <==> !hasAnyConfig
      ensures run.ConfigMissing? ==> limiter == null && unchanged(this)
      ensures Passes(run, |selected|) <= |selected|
      ensures !run.ConfigMissing? ==>
        && fileType == old(fileType) && fileName == old(fileName)
        && extractionImages == old(extractionImages)
        && pageResults == Progress(images, selected, Responses(events), Passes(run, |selected|))
        && LimitOf(limiter) == ResolveRateLimit(activeConfig, envConfig)
        && (limiter != null ==>
              && fresh(limiter)
              && limiter.history == Records(images, selected, Responses(events), RecordClocks(events),
                                            Passes(run, |selected|)))
      ensures !run.ConfigMissing? ==>
        run == Outcome(LimitOf(limiter), images, selected, events) && Ended(run, images, selected, events, limiter)
    {
      if !hasAnyConfig {
        return ConfigMissing, null;
      }
      var rlConfig := ResolveRateLimit(activeConfig, envConfig);
      if rlConfig.Some? {
        limiter := new RateLimiter(rlConfig.value);
      } else {
        limiter := null;
      }

      pageResults := InitialResults(selected);
      ProgressSteps0(images, selected, Responses(events));
      isExtracting := true;
      extractingIdx := 0;
      rateLimitWaitUntil := None;
      step := Extract;
      run := RunPasses(images, selected, events, limiter);
    }

    /** The loop of `startExtraction` and what follows it, from the state its
        set-up leaves: every slot pending, no wait shown, the limiter empty. */
    method RunPasses(images: seq<string>, selected: seq<int>, events: seq<PageEvent>, limiter: RateLimiter?)
      returns (run: Run)
      requires |events| == |selected|
      requires pageResults == Progress(images, selected, Responses(events), 0)
      requires step == Extract && isExtracting && extractingIdx == 0 && rateLimitWaitUntil.None?
      requires limiter != null ==> limiter.history == [] && limiter.records == []
      modifies this, limiter
      ensures !run.ConfigMissing? && Passes(run, |selected|) <= |selected|
      ensures fileType == old(fileType) && fileName == old(fileName)
      ensures extractionImages == old(extractionImages)
      ensures pageResults == Progress(images, selected, Responses(events), Passes(run, |selected|))
      ensures limiter != null ==>
        limiter.history == Records(images, selected, Responses(events), RecordClocks(events), Passes(run, |selected|))
      ensures run == Outcome(LimitOf(limiter), images, selected, events)
      ensures Ended(run, images, selected, events, limiter)
    {
      ghost var stops := PassStops(LimitOf(limiter), images, selected, events);
      var stop := RunLoop(images, selected, events, limiter, stops);
      if stop.Some? {
        return stop.value;
      }
      streamingMarkdown := "";
      rateLimitWaitUntil := None;
      isExtracting := false;
      step := Done;
      run := Finished;
    }

    /** The `for` loop of `startExtraction`: the passes in order, until one
        is interrupted or all are done. */
    method RunLoop(images: seq<string>, selected: seq<int>, events: seq<PageEvent>, limiter: RateLimiter?,
                   ghost stops: seq<Option<Run>>)
      returns (stop: Option<Run>)
      requires |events| == |selected|
      requires stops == PassStops(LimitOf(limiter), images, selected, events)
      requires pageResults == Progress(images, selected, Responses(events), 0)
      requires step == Extract && isExtracting && extractingIdx == 0 && rateLimitWaitUntil.None?
      requires limiter != null ==> limiter.history == [] && limiter.records == []
      modifies this, limiter
      ensures stop.None? || stop.value.InterruptedInWait? || stop.value.InterruptedInFetch?
      ensures var passes := if stop.None? then |selected| else Passes(stop.value, |selected|);
        && passes <= |selected|
        && pageResults == Progress(images, selected, Responses(events), passes)
        && (limiter != null ==>
              limiter.history == Records(images, selected, Responses(events), RecordClocks(events), passes))
      ensures fileType == old(fileType) && fileName == old(fileName)
      ensures extractionImages == old(extractionImages)
      ensures step == Extract && isExtracting
      ensures stop.None? ==>
        && FirstStop(stops) == Finished && rateLimitWaitUntil.None?
        && (selected == [] ==> extractingIdx == 0)
        && (selected != [] ==> extractingIdx == |selected| - 1)
      ensures stop.Some? ==>
        && stop.value == FirstStop(stops)
        && stop.value.at < |selected| && extractingIdx == stop.value.at
      ensures stop.Some? && stop.value.InterruptedInWait? ==>
        && streamingMarkdown == ""
        && rateLimitWaitUntil.Some? && rateLimitWaitUntil.value > events[stop.value.at].waitClock
      ensures stop.Some? && stop.value.InterruptedInFetch? ==>
        streamingMarkdown == StreamedText(events[stop.value.at].response) && rateLimitWaitUntil.None?
    {
      var i := 0;
      while i < |selected|
        invariant 0 <= i <= |selected|
        invariant fileType == old(fileType) && fileName == old(fileName)
        invariant extractionImages == old(extractionImages)
        invariant step == Extract && isExtracting && rateLimitWaitUntil.None?
        invariant i == 0 ==> extractingIdx == 0
        invariant i > 0 ==> extractingIdx == i - 1
        invariant pageResults == Progress(images, selected, Responses(events), i)
        invariant limiter != null ==>
          && limiter.history == Records(images, selected, Responses(events), RecordClocks(events), i)
          && limiter.records == LimiterRecords(limiter.config, images, selected, events, i)
        invariant FirstStopAt(stops, 0) == FirstStopAt(stops, i)
        invariant i == |selected| ==> FirstStop(stops) == Finished
      {
        stop := LoopPass(images, selected, events, i, limiter, stops);
        if stop.Some? {
          return;
        }
        i := i + 1;
      }
      stop := None;
    }

    /** A pass as the loop sees it: either the search for the first stop
        moves on to the next pass, or this pass is the first stop and the
        state is the one the loop leaves behind. */
    method LoopPass(images: seq<string>, selected: seq<int>, events: seq<PageEvent>, i: nat,
                    limiter: RateLimiter?, ghost stops: seq<Option<Run>>)
      returns (stop: Option<Run>)
      requires i < |selected| == |events|
      requires stops == PassStops(LimitOf(limiter), images, selected, events)
      requires FirstStopAt(stops, 0) == FirstStopAt(stops, i)
      requires pageResults == Progress(images, selected, Responses(events), i) && rateLimitWaitUntil.None?
      requires limiter != null ==>
        && limiter.history == Records(images, selected, Responses(events), RecordClocks(events), i)
        && limiter.records == LimiterRecords(limiter.config, images, selected, events, i)
      modifies this, limiter
      ensures step == old(step) && isExtracting == old(isExtracting) && extractingIdx == i
      ensures fileType == old(fileType) && fileName == old(fileName) && extractionImages == old(extractionImages)
      ensures stop.None? ==>
        && FirstStopAt(stops, 0) == FirstStopAt(stops, i + 1)
        && (i + 1 == |selected| ==> FirstStop(stops) == Finished)
        && pageResults == Progress(images, selected, Responses(events), i + 1) && rateLimitWaitUntil.None?
        && (limiter != null ==>
              && limiter.history == Records(images, selected, Responses(events), RecordClocks(events), i + 1)
              && limiter.records == LimiterRecords(limiter.config, images, selected, events, i + 1))
      ensures stop.Some? ==>
        && (stop.value.InterruptedInWait? || stop.value.InterruptedInFetch?)
        && stop.value == FirstStop(stops) && stop.value.at == i
        && var passes := Passes(stop.value, |selected|);
           && passes <= |selected|
           && pageResults == Progress(images, selected, Responses(events), passes)
           && (limiter != null ==>
                 limiter.history == Records(images, selected, Responses(events), RecordClocks(events), passes))
      ensures stop.Some? && stop.value.InterruptedInWait? ==>
        && streamingMarkdown == ""
        && rateLimitWaitUntil.Some? && rateLimitWaitUntil.value > events[i].waitClock
      ensures stop.Some? && stop.value.InterruptedInFetch? ==>
        streamingMarkdown == StreamedText(events[i].response) && rateLimitWaitUntil.None?
    {
      stop := RunPass(images, selected, events, i, limiter);
      assert stops[i] == stop;
      FirstStopStep(stops, i);
      if stop.Some? {
        assert Passes(stop.value, |selected|) == if stop.value.InterruptedInWait? then i else i + 1;
      }
    }

    /** One pass of the loop in `startExtraction`: wait for the limiter if
        it asks to, mark the page as extracting, send it and write what came
        back. It returns the interruption that ends the loop, if any. */
    method RunPass(images: seq<string>, selected: seq<int>, events: seq<PageEvent>, i: nat,
                   limiter: RateLimiter?)
      returns (stop: Option<Run>)
      requires i < |selected| == |events|
      requires pageResults == Progress(images, selected, Responses(events), i) && rateLimitWaitUntil.None?
      requires limiter != null ==>
        && limiter.history == Records(images, selected, Responses(events), RecordClocks(events), i)
        && limiter.records == LimiterRecords(limiter.config, images, selected, events, i)
      modifies this, limiter
      ensures step == old(step) && isExtracting == old(isExtracting) && extractingIdx == i
      ensures fileType == old(fileType) && fileName == old(fileName) && extractionImages == old(extractionImages)
      ensures stop.None? || stop == Some(InterruptedInWait(i)) || stop == Some(InterruptedInFetch(i))
      ensures stop == PassStop(LimitOf(limiter), images, selected, events, i)
      ensures stop != Some(InterruptedInWait(i)) ==>
        && pageResults == Progress(images, selected, Responses(events), i + 1) && rateLimitWaitUntil.None?
        && (limiter != null ==>
              && limiter.history == Records(images, selected, Responses(events), RecordClocks(events), i + 1)
              && limiter.records == LimiterRecords(limiter.config, images, selected, events, i + 1))
      ensures stop == Some(InterruptedInWait(i)) ==>
        && limiter != null && pageResults == old(pageResults) && streamingMarkdown == ""
        && PassWait(limiter.config, images, selected, events, i) > 0
        && limiter.history == Records(images, selected, Responses(events), RecordClocks(events), i)
        && limiter.records
           == Prune(LimiterRecords(limiter.config, images, selected, events, i), events[i].waitClock, MaxAge(limiter.config))
        && rateLimitWaitUntil == Some(events[i].waitClock + PassWait(limiter.config, images, selected, events, i))
      ensures stop == Some(InterruptedInFetch(i)) ==> streamingMarkdown == StreamedText(events[i].response)
    {
      var event := events[i];
      extractingIdx := i;
      streamingMarkdown := "";

      var aborted := AwaitLimiter(limiter, event.waitClock, event.sleep);
      if aborted {
        return Some(InterruptedInWait(i));
      }
      stop := SendPage(images, selected, events, i, limiter);
    }

    /** The rest of a pass once the wait is over: mark the page as
        extracting, send it and write what came back, recording the request
        with the limiter when it came back. */
    method SendPage(images: seq<string>, selected: seq<int>, events: seq<PageEvent>, i: nat,
                    limiter: RateLimiter?)
      returns (stop: Option<Run>)
      requires i < |selected| == |events|
      requires pageResults == Progress(images, selected, Responses(events), i)
      requires limiter != null ==>
        && limiter.history == Records(images, selected, Responses(events), RecordClocks(events), i)
        && limiter.records
           == Prune(LimiterRecords(limiter.config, images, selected, events, i), events[i].waitClock, MaxAge(limiter.config))
      modifies this`pageResults, this`streamingMarkdown, limiter
      ensures stop.None? || stop == Some(InterruptedInFetch(i))
      ensures stop.Some? <==> AbortsInFetch(images, selected, events, i)
      ensures pageResults == Progress(images, selected, Responses(events), i + 1)
      ensures limiter != null ==>
        && limiter.history == Records(images, selected, Responses(events), RecordClocks(events), i + 1)
        && limiter.records == LimiterRecords(limiter.config, images, selected, events, i + 1)
      ensures stop.Some? ==> streamingMarkdown == StreamedText(events[i].response)
    {
      ghost var responses := Responses(events);
      ghost var clocks := RecordClocks(events);
      var imgIdx := selected[i];
      var event := events[i];
      ProgressStep(images, selected, responses, i);
      pageResults := pageResults[i := pageResults[i].(status := Extracting)];

      var imageData := ImageAt(images, imgIdx);
      if imageData.None? {
        RecordsStep(images, selected, responses, clocks, i);
        return None;
      }
      var outcome := ExtractSinglePage(imgIdx, imgIdx + 1, event.response);
      streamingMarkdown := StreamedText(event.response);
      if outcome.AbortThrown? {
        return Some(InterruptedInFetch(i));
      }
      var result := outcome.result;
      RecordsStep(images, selected, responses, clocks, i);
      assert result == SlotAfter(images, imgIdx, responses[i]);
      if limiter != null {
        limiter.RecordRequest(event.recordClock, result.usage);
      }
      pageResults := pageResults[i := result];
      stop := None;
    }

    /** The head of a pass: when the limiter asks for a wait, show until
        when and sleep; it returns whether the sleep was aborted. Asking
        prunes the limiter's records, and a sleep that runs out clears the
        wait shown. */
    method AwaitLimiter(limiter: RateLimiter?, clock: int, sleep: SleepOutcome) returns (aborted: bool)
      modifies this`rateLimitWaitUntil, limiter
      ensures limiter != null ==>
        && limiter.records == Prune(old(limiter.records), clock, MaxAge(limiter.config))
        && limiter.history == old(limiter.history)
      ensures aborted <==>
        limiter != null && WaitTime(limiter.records, limiter.config, clock) > 0 && sleep == SleepAborted
      ensures aborted ==>
        limiter != null && rateLimitWaitUntil == Some(clock + WaitTime(limiter.records, limiter.config, clock))
      ensures !aborted ==>
        rateLimitWaitUntil
        == (if limiter != null && WaitTime(limiter.records, limiter.config, clock) > 0 then None
            else old(rateLimitWaitUntil))
    {
      aborted := false;
      if limiter != null {
        var waitMs := limiter.GetWaitTimeMs(clock);
        if waitMs > 0 {
          rateLimitWaitUntil := Some(clock + waitMs);
          if sleep == SleepAborted {
            return true;
          }
          rateLimitWaitUntil := None;
        }
      }
    }

    /** `handleStop()`: unfinished pages become skipped and the batch is over. */
    method Stop()
      modifies this
      ensures pageResults == StopResults(old(pageResults))
      ensures step == Done && !isExtracting && streamingMarkdown == "" && rateLimitWaitUntil.None?
      ensures fileType == old(fileType) && fileName == old(fileName)
      ensures extractionImages == old(extractionImages) && extractingIdx == old(extractingIdx)
    {
      pageResults := StopResults(pageResults);
      streamingMarkdown := "";
      rateLimitWaitUntil := None;
      isExtracting := false;
      step := Done;
    }

    /** `retryPage(k)`: only slot `k` changes, first to a fresh extracting
        entry and then to what the request gave; an aborted request leaves
        the pre-retry entry marked as failed. */
    method RetryPage(k: int, hasAnyConfig: bool, response: FetchOutcome) returns (run: RetryRun)
      modifies this
      ensures step == old(step) && fileType == old(fileType) && fileName == old(fileName)
      ensures extractionImages == old(extractionImages) && extractingIdx == old(extractingIdx)
      ensures isExtracting == old(isExtracting) && rateLimitWaitUntil == old(rateLimitWaitUntil)
      ensures run == RetryConfigMissing <==> !hasAnyConfig
      ensures run == NoSuchPage <==> hasAnyConfig && !(0 <= k < |old(pageResults)|)
      ensures run == RetryConfigMissing || run == NoSuchPage ==> unchanged(this)
      ensures run == ImageMissing || run == Retried ==>
        && 0 <= k < |old(pageResults)| && streamingMarkdown == ""
        && |pageResults| == |old(pageResults)|
        && (forall j :: 0 <= j < |pageResults| && j != k ==> pageResults[j] == old(pageResults)[j])
      ensures run == ImageMissing ==>
        && ImageAt(extractionImages, old(pageResults)[k].imageIndex).None?
        && pageResults[k] == RetryPending(old(pageResults)[k])
      ensures run == Retried ==>
        var target := old(pageResults)[k];
        && ImageAt(extractionImages, target.imageIndex).Some?
        && pageResults[k] == match ExtractSinglePage(target.imageIndex, target.pageNumber, response)
                             case AbortThrown => RetryInterrupted(target)
                             case Returned(r) => r
    {
      if !hasAnyConfig {
        return RetryConfigMissing;
      }
      if !(0 <= k < |pageResults|) {
        return NoSuchPage;
      }
      var target := pageResults[k];
      pageResults := pageResults[k := RetryPending(target)];
      streamingMarkdown := "";
      var imageData := ImageAt(extractionImages, target.imageIndex);
      if imageData.None? {
        return ImageMissing;
      }
      var outcome := ExtractSinglePage(target.imageIndex, target.pageNumber, response);
      match outcome {
        case AbortThrown =>
          pageResults := pageResults[k := RetryInterrupted(target)];
        case Returned(r) =>
          pageResults := pageResults[k := r];
      }
      streamingMarkdown := "";
      run := Retried;
    }

    /** `handlePagesRendered(pages, name)`: a rendered PDF goes to page
        selection with no results. */
    method PagesRendered(pages: seq<string>, originalFileName: string)
      modifies this
      ensures fileType == Pdf && fileName == StripExtension(originalFileName)
      ensures pageResults == [] && extractionImages == pages && step == Select
      ensures extractingIdx == old(extractingIdx) && isExtracting == old(isExtracting)
      ensures streamingMarkdown == old(streamingMarkdown) && rateLimitWaitUntil == old(rateLimitWaitUntil)
    {
      fileType := Pdf;
      fileName := StripExtension(originalFileName);
      pageResults := [];
      extractionImages := pages;
      step := Select;
    }

    /** `handleImageUploaded(dataUrl, name)`: a single image is extracted at
        once, as page 1. */
    method ImageUploaded(dataUrl: string, originalFileName: string, hasAnyConfig: bool,
                         activeConfig: Option<ModelConfig>, envConfig: Option<EnvConfig>,
                         event: PageEvent)
      returns (run: Run, limiter: RateLimiter?)
      modifies this
      ensures fileType == Image && fileName == StripExtension(originalFileName)
      ensures extractionImages == [dataUrl]
      ensures run.ConfigMissing? <==> !hasAnyConfig
      ensures Passes(run, 1) <= 1
      ensures run.ConfigMissing? ==>
        && limiter == null && pageResults == [] && step == old(step)
        && isExtracting == old(isExtracting) && extractingIdx == old(extractingIdx)
        && streamingMarkdown == old(streamingMarkdown) && rateLimitWaitUntil == old(rateLimitWaitUntil)
      ensures !run.ConfigMissing? ==>
        && pageResults == Progress([dataUrl], [0], [event.response], Passes(run, 1))
        && LimitOf(limiter) == ResolveRateLimit(activeConfig, envConfig)
        && (limiter != null ==>
              && fresh(limiter)
              && limiter.history == Records([dataUrl], [0], [event.response], [event.recordClock], Passes(run, 1)))
      ensures !run.ConfigMissing? ==>
        run == Outcome(LimitOf(limiter), [dataUrl], [0], [event]) && Ended(run, [dataUrl], [0], [event], limiter)
      ensures run.Finished? ==> step == Done && !isExtracting && |pageResults| == 1
    {
      fileType := Image;
      fileName := StripExtension(originalFileName);
      pageResults := [];
      extractionImages := [dataUrl];
      run, limiter := StartExtraction([dataUrl], [0], hasAnyConfig, activeConfig, envConfig, [event]);
      assert Responses([event]) == [event.response];
      assert RecordClocks([event]) == [event.recordClock];
    }

    /** `handleStartSelectedExtraction(indices)`: a batch over the rendered
        pages. */
    method StartSelected(selected: seq<int>, hasAnyConfig: bool,
                         activeConfig: Option<ModelConfig>, envConfig: Option<EnvConfig>,
                         events: seq<PageEvent>)
      returns (run: Run, limiter: RateLimiter?)
      requires |events| == |selected|
      modifies this
      ensures extractionImages == old(extractionImages)
      ensures run.ConfigMissing? <==> !hasAnyConfig
      ensures Passes(run, |selected|) <= |selected|
      ensures run.ConfigMissing? ==> limiter == null && unchanged(this)
      ensures !run.ConfigMissing? ==>
        && fileType == old(fileType) && fileName == old(fileName)
        && pageResults == Progress(old(extractionImages), selected, Responses(events), Passes(run, |selected|))
        && LimitOf(limiter) == ResolveRateLimit(activeConfig, envConfig)
        && (limiter != null ==>
              && fresh(limiter)
              && limiter.history == Records(old(extractionImages), selected, Responses(events), RecordClocks(events),
                                            Passes(run, |selected|)))
      ensures !run.ConfigMissing? ==>
        && run == Outcome(LimitOf(limiter), old(extractionImages), selected, events)
        && Ended(run, old(extractionImages), selected, events, limiter)
    {
      run, limiter := StartExtraction(extractionImages, selected, hasAnyConfig, activeConfig, envConfig, events);
    }

    /** `handleDocxUploaded(file)`: the conversion always ends with exactly
        one result and the batch finished. */
    method DocxUploaded(name: string, reply: DocxReply)
      modifies this
      ensures fileType == Docx && fileName == StripExtension(name) && extractionImages == []
      ensures pageResults == [DocxResult(reply)]
      ensures step == Done && !isExtracting && streamingMarkdown == ""
      ensures extractingIdx == old(extractingIdx) && rateLimitWaitUntil == old(rateLimitWaitUntil)
    {
      fileType := Docx;
      fileName := StripExtension(name);
      pageResults := [];
      extractionImages := [];
      isExtracting := true;
      step := Extract;
      streamingMarkdown := "";
      pageResults := [DocxResult(reply)];
      isExtracting := false;
      step := Done;
    }

    /** `handleReset()`: back to the initial state. */
    method Reset()
      modifies this
      ensures step == Upload && fileType == Pdf && fileName == ""
      ensures extractionImages == [] && pageResults == [] && extractingIdx == 0
      ensures !isExtracting && streamingMarkdown == "" && rateLimitWaitUntil.None?
    {
      step := Upload;
      fileType := Pdf;
      fileName := "";
      extractionImages := [];
      pageResults := [];
      streamingMarkdown := "";
      extractingIdx := 0;
      isExtracting := false;
      rateLimitWaitUntil := None;
    }

    /** `totalPages` for the current state. */
    function TotalPagesNow(): (t: int)
      reads this
      ensures t >= |extractionImages| && t >= |pageResults| && (isExtracting ==> t >= extractingIdx + 1)
      ensures t == |extractionImages| || t == |pageResults| || (isExtracting && t == extractingIdx + 1)
    {
      TotalPages(|extractionImages|, |pageResults|, isExtracting, extractingIdx)
    }
  }

  /** A pass adds a record exactly when its request came back. */
  lemma RecordsStep(images: seq<string>, selected: seq<int>, responses: seq<FetchOutcome>, clocks: seq<int>, i: nat)
    requires i < |selected| <= |responses| && |responses| == |clocks|
    ensures Records(images, selected, responses, clocks, i + 1)
         == Records(images, selected, responses, clocks, i)
            + (if Settled(images, selected[i], responses[i])
               then [Stamp(clocks[i], SlotAfter(images, selected[i], responses[i]).usage)] else [])
  {
  }

  lemma ProgressSteps0(images: seq<string>, selected: seq<int>, responses: seq<FetchOutcome>)
    requires |selected| <= |responses|
    ensures Progress(images, selected, responses, 0) == InitialResults(selected)
  {
  }

  /** Marking slot `i` as extracting and then writing the pass's outcome
      gives the next stage of `Progress`. */
  lemma ProgressStep(images: seq<string>, selected: seq<int>, responses: seq<FetchOutcome>, i: nat)
    requires i < |selected| <= |responses|
    ensures Progress(images, selected, responses, i)[i] == InitialResult(selected[i])
    ensures Progress(images, selected, responses, i + 1)
         == Progress(images, selected, responses, i)[i := SlotAfter(images, selected[i], responses[i])]
  {
  }

  /** A finished batch leaves no page pending, and leaves a page extracting
      exactly when its image was missing. */
  lemma FinishedLeavesNothingPending(images: seq<string>, selected: seq<int>, events: seq<PageEvent>)
    requires |events| == |selected|
    requires forall j :: 0 <= j < |selected| ==> !AbortsInFetch(images, selected, events, j)
    ensures var rs := Progress(images, selected, Responses(events), |selected|);
      forall j :: 0 <= j < |selected| ==>
        rs[j].status != Pending && (rs[j].status == Extracting <==> ImageAt(images, selected[j]).None?)
  {
    var rs := Progress(images, selected, Responses(events), |selected|);
    forall j | 0 <= j < |selected|
      ensures rs[j].status != Pending && (rs[j].status == Extracting <==> ImageAt(images, selected[j]).None?)
    {
      assert !AbortsInFetch(images, selected, events, j);
      assert rs[j] == SlotAfter(images, selected[j], events[j].response);
    }
  }

  /** The limiter of a batch holds one record per page that came back,
      successes and errors alike. */
  lemma LimiterCountsSettledPages(images: seq<string>, selected: seq<int>, events: seq<PageEvent>, k: nat)
    requires |events| == |selected| && k <= |selected|
    ensures |Records(images, selected, Responses(events), RecordClocks(events), k)|
         == CountSettled(Progress(images, selected, Responses(events), k)[..k])
  {
    RecordsCountSettled(images, selected, Responses(events), RecordClocks(events), k);
  }
}

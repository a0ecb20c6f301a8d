/**
 * What src/features/extractor/components/extractor-page.tsx computes from
 * the extraction state: the combined download and clipboard texts built
 * from the successful pages, the file name of the combined download, which
 * buttons are shown, the text each page's panel displays, and the rate
 * limit the page's wiring of the extraction hook leads to.
 */
module ExtractorPage {
  import opened Wrappers
  import opened Text
  import opened SettingsTypes
  import opened ConfigStore
  import opened Extraction

  /** The separator between pages in both combined texts. */
  const PAGE_SEPARATOR: string := "\n\n---\n\n"

  /** `pageResults.filter((r) => r.status === "success")` */
  function SuccessResults(rs: seq<PageResult>): (out: seq<PageResult>)
    ensures |out| <= |rs|
  {
    if rs == [] then []
    else
      var last := rs[|rs| - 1];
      SuccessResults(rs[..|rs| - 1]) + (if last.status == Success then [last] else [])
  }

  /** The pages kept all succeeded, and they are exactly the successful
      ones. */
  lemma {:induction false} SuccessResultsMembers(rs: seq<PageResult>)
    ensures forall i :: 0 <= i < |SuccessResults(rs)| ==> SuccessResults(rs)[i].status == Success
    ensures forall r :: r in SuccessResults(rs) <==> r in rs && r.status == Success
  {
    if rs != [] {
      SuccessResultsMembers(rs[..|rs| - 1]);
      assert rs == rs[..|rs| - 1] + [rs[|rs| - 1]];
    }
  }

  /** Filtering a concatenation filters each side. With
      `SuccessResultsOne` this puts the successful pages in result order,
      each as often as it occurs. */
  lemma {:induction false} SuccessResultsConcat(a: seq<PageResult>, b: seq<PageResult>)
    ensures SuccessResults(a + b) == SuccessResults(a) + SuccessResults(b)
    decreases |b|
  {
    if b == [] {
      assert a + b == a;
    } else {
      var init := b[..|b| - 1];
      var last := b[|b| - 1];
      SuccessResultsConcat(a, init);
      assert b == init + [last];
      assert a + b == (a + init) + [last];
      SuccessSnocStep(a + init, init, last, SuccessResults(a));
    }
  }

  /** Appending one result to two lists whose successes agree up to a
      common head keeps them agreeing. */
  lemma SuccessSnocStep(t: seq<PageResult>, init: seq<PageResult>, last: PageResult, ra: seq<PageResult>)
    requires SuccessResults(t) == ra + SuccessResults(init)
    ensures SuccessResults(t + [last]) == ra + SuccessResults(init + [last])
  {
    assert (t + [last])[..|t|] == t && (t + [last])[|t|] == last;
    assert (init + [last])[..|init|] == init && (init + [last])[|init|] == last;
  }

  /** A single result is kept exactly when it succeeded. */
  lemma SuccessResultsOne(r: PageResult)
    ensures SuccessResults([r]) == if r.status == Success then [r] else []
  {
    assert [r][..0] == [];
  }

  /** `successCount` */
  function SuccessCount(rs: seq<PageResult>): nat
  {
    |SuccessResults(rs)|
  }

  /** The count is zero exactly when no page succeeded. */
  lemma SuccessCountZero(rs: seq<PageResult>)
    ensures SuccessCount(rs) == 0 <==> forall i :: 0 <= i < |rs| ==> rs[i].status != Success
  {
    SuccessResultsMembers(rs);
    if SuccessCount(rs) != 0 {
      var r := SuccessResults(rs)[0];
      assert r in SuccessResults(rs);
      var i :| 0 <= i < |rs| && rs[i] == r;
    } else {
      forall i | 0 <= i < |rs|
        ensures rs[i].status != Success
      {
        assert rs[i] !in SuccessResults(rs);
      }
    }
  }

  /** One page of the combined download: an HTML comment naming the page,
      a blank line, then the page's Markdown. */
  function PageSection(r: PageResult): string
  {
    "<!-- Page " + IntToString(r.pageNumber) + " -->\n\n" + r.markdown
  }

  function Sections(rs: seq<PageResult>): (ss: seq<string>)
    ensures |ss| == |rs| && forall i :: 0 <= i < |rs| ==> ss[i] == PageSection(rs[i])
  {
    seq(|rs|, i requires 0 <= i < |rs| => PageSection(rs[i]))
  }

  function Markdowns(rs: seq<PageResult>): (ss: seq<string>)
    ensures |ss| == |rs| && forall i :: 0 <= i < |rs| ==> ss[i] == rs[i].markdown
  {
    seq(|rs|, i requires 0 <= i < |rs| => rs[i].markdown)
  }

  /** The text `handleDownloadAll` saves. */
  function DownloadAllText(rs: seq<PageResult>): string
  {
    Join(Sections(SuccessResults(rs)), PAGE_SEPARATOR)
  }

  /** The text `handleCopyAll` puts on the clipboard. */
  function CopyAllText(rs: seq<PageResult>): string
  {
    Join(Markdowns(SuccessResults(rs)), PAGE_SEPARATOR)
  }

  /** Appending a page to the results adds its section after a separator
      when it succeeded, and changes nothing otherwise. */
  lemma DownloadAllAppend(rs: seq<PageResult>, r: PageResult)
    ensures r.status != Success ==> DownloadAllText(rs + [r]) == DownloadAllText(rs)
    ensures r.status == Success && SuccessCount(rs) == 0 ==> DownloadAllText(rs + [r]) == PageSection(r)
    ensures r.status == Success && SuccessCount(rs) > 0 ==>
      DownloadAllText(rs + [r]) == DownloadAllText(rs) + PAGE_SEPARATOR + PageSection(r)
  {
    var s := SuccessResults(rs);
    assert (rs + [r])[..|rs|] == rs;
    if r.status == Success {
      assert SuccessResults(rs + [r]) == s + [r];
      assert Sections(s + [r]) == Sections(s) + [PageSection(r)];
      if s != [] {
        JoinAppend(Sections(s), PageSection(r), PAGE_SEPARATOR);
      }
    } else {
      assert SuccessResults(rs + [r]) == s;
    }
  }

  /** The same for the clipboard text, without the page headers. */
  lemma CopyAllAppend(rs: seq<PageResult>, r: PageResult)
    ensures r.status != Success ==> CopyAllText(rs + [r]) == CopyAllText(rs)
    ensures r.status == Success && SuccessCount(rs) == 0 ==> CopyAllText(rs + [r]) == r.markdown
    ensures r.status == Success && SuccessCount(rs) > 0 ==>
      CopyAllText(rs + [r]) == CopyAllText(rs) + PAGE_SEPARATOR + r.markdown
  {
    var s := SuccessResults(rs);
    assert (rs + [r])[..|rs|] == rs;
    if r.status == Success {
      assert SuccessResults(rs + [r]) == s + [r];
      assert Markdowns(s + [r]) == Markdowns(s) + [r.markdown];
      if s != [] {
        JoinAppend(Markdowns(s), r.markdown, PAGE_SEPARATOR);
      }
    } else {
      assert SuccessResults(rs + [r]) == s;
    }
  }

  /** Stopping an extraction keeps exactly the pages that had succeeded. */
  lemma {:induction false} StopKeepsSuccesses(rs: seq<PageResult>)
    ensures SuccessResults(StopResults(rs)) == SuccessResults(rs)
  {
    if rs != [] {
      var n := |rs| - 1;
      assert StopResults(rs)[..n] == StopResults(rs[..n]);
      StopKeepsSuccesses(rs[..n]);
    }
  }

  /** So stopping changes neither combined text, and the buttons that
      export them are shown after a stop exactly when some page had
      succeeded. */
  lemma StopKeepsExports(rs: seq<PageResult>)
    ensures DownloadAllText(StopResults(rs)) == DownloadAllText(rs)
    ensures CopyAllText(StopResults(rs)) == CopyAllText(rs)
    ensures ShowCopyDownload(Done, StopResults(rs)) <==> exists i :: 0 <= i < |rs| && rs[i].status == Success
  {
    StopKeepsSuccesses(rs);
    SuccessCountZero(rs);
  }

  /** `${fileName || "extracted_document"}.md` */
  function DownloadAllName(fileName: string): (r: string)
    ensures EndsWith(r, ".md")
    ensures r[..|r| - 3] == if fileName == "" then "extracted_document" else fileName
  {
    var base := if fileName == "" then "extracted_document" else fileName;
    assert (base + ".md")[..|base|] == base;
    base + ".md"
  }

  /** The name kept for a document is its original name without the
      extension, so the combined download puts `.md` in that extension's
      place. */
  lemma DownloadAllReplacesExtension(base: string, ext: string)
    requires base != [] && ext != [] && '.' !in ext
    ensures DownloadAllName(StripExtension(base + "." + ext)) == base + ".md"
  {
    StripExtensionOf(base, ext);
  }

  /** The copy and download buttons: shown once extraction is done and at
      least one page succeeded. */
  predicate ShowCopyDownload(step: Step, rs: seq<PageResult>)
  {
    step == Done && SuccessCount(rs) > 0
  }

  /** The buttons are shown exactly when extraction is done and some page
      succeeded. */
  lemma ShowCopyDownloadSpec(step: Step, rs: seq<PageResult>)
    ensures ShowCopyDownload(step, rs) <==> step == Done && exists i :: 0 <= i < |rs| && rs[i].status == Success
  {
    SuccessCountZero(rs);
  }

  /** The progress label next to the title, `(i/n)`, while extracting. */
  function ProgressLabel(isExtracting: bool, extractingIdx: int, rs: seq<PageResult>): (r: Option<string>)
    ensures r.Some? <==> isExtracting
  {
    if isExtracting then
      Some("(" + IntToString(extractingIdx + 1) + "/" + IntToString(|rs|) + ")")
    else None
  }

  /** The Markdown a page's panel shows: the live stream for the page being
      extracted, the stored Markdown for every other page. */
  function PanelMarkdown(r: PageResult, streamingMarkdown: string): (md: string)
    ensures r.status == Extracting ==> md == streamingMarkdown
    ensures r.status != Extracting ==> md == r.markdown
  {
    if r.status == Extracting then streamingMarkdown else r.markdown
  }

  /** Every page shows its own Markdown once an extraction has been
      stopped, since none is left extracting. */
  lemma StoppedPanelsShowStored(rs: seq<PageResult>, streamingMarkdown: string, i: int)
    requires 0 <= i < |rs|
    ensures PanelMarkdown(StopResults(rs)[i], streamingMarkdown) == rs[i].markdown
  {
    StopSettles(rs);
  }

  /** The limit the extraction hook resolves as the page wires it: the
      page reads the server's configuration from the settings context but
      does not hand it to the hook, so the hook sees none and only the
      active configuration's own limit can apply. */
  function LimitAsWired(active: Option<ModelConfig>): (r: Option<RateLimitConfig>)
    ensures r.Some? <==> active.Some? && HasRateLimitEnabled(active.value.rateLimit)
    ensures r.Some? ==> r == active.value.rateLimit
  {
    ResolveRateLimit(active, None)
  }

  /** With no limit of its own in the active configuration, a limit the
      server enables is ignored by the page as wired, although the hook
      would apply it if it were passed. */
  lemma ServerLimitIgnored(active: Option<ModelConfig>, env: EnvConfig)
    requires !(active.Some? && HasRateLimitEnabled(active.value.rateLimit))
    requires HasRateLimitEnabled(env.rateLimit)
    ensures LimitAsWired(active) == None
    ensures ResolveRateLimit(active, Some(env)) == env.rateLimit
  {
  }
}

/**
 * The client-side sliding-window rate limiter of
 * src/features/extractor/services/rate-limiter.ts.
 *
 * The limiter keeps one record per finished request and answers how long the
 * next request has to wait under three independent quotas: a request count per
 * window, prompt tokens per minute and completion tokens per minute. The clock
 * (`Date.now()`) is the parameter `now`, in milliseconds.
 */
module RateLimiting {
  import opened Wrappers
  import opened SettingsTypes

  const MINUTE_MS: int := 60000

  /** The token usage a finished request reports. */
  datatype Usage = Usage(promptTokens: int, completionTokens: int)

  datatype RequestRecord = RequestRecord(timestamp: int, promptTokens: int, completionTokens: int)

  /** The record `recordRequest` pushes at time `now`: missing usage counts 0 tokens. */
  function Stamp(now: int, usage: Option<Usage>): RequestRecord
  {
    match usage
    case Some(u) => RequestRecord(now, u.promptTokens, u.completionTokens)
    case None => RequestRecord(now, 0, 0)
  }

  /** The age beyond which `cleanup` forgets a record: the request window or
      one minute, whichever is longer; a missing window counts as 0. */
  function MaxAge(config: RateLimitConfig): (m: int)
    ensures m >= MINUTE_MS && m >= config.requestWindowSeconds.GetOr(0) * 1000
  {
    var windowMs := config.requestWindowSeconds.GetOr(0) * 1000;
    if windowMs > MINUTE_MS then windowMs else MINUTE_MS
  }

  /** `records.filter(r => now - r.timestamp <= maxAge)` */
  function Prune(rs: seq<RequestRecord>, now: int, maxAge: int): seq<RequestRecord>
  {
    if rs == [] then []
    else (if now - rs[0].timestamp <= maxAge then [rs[0]] else []) + Prune(rs[1..], now, maxAge)
  }

  /** `records.filter(r => r.timestamp > start)` */
  function Newer(rs: seq<RequestRecord>, start: int): seq<RequestRecord>
  {
    if rs == [] then []
    else (if rs[0].timestamp > start then [rs[0]] else []) + Newer(rs[1..], start)
  }

  /** `records.find(r => r.timestamp > start)` */
  function FindNewer(rs: seq<RequestRecord>, start: int): Option<RequestRecord>
  {
    if rs == [] then None
    else if rs[0].timestamp > start then Some(rs[0])
    else FindNewer(rs[1..], start)
  }

  function PromptSum(rs: seq<RequestRecord>): int
  {
    if rs == [] then 0 else rs[0].promptTokens + PromptSum(rs[1..])
  }

  function CompletionSum(rs: seq<RequestRecord>): int
  {
    if rs == [] then 0 else rs[0].completionTokens + CompletionSum(rs[1..])
  }

  /** The wait the request-count quota asks for, if it is reached. */
  function RequestWait(rs: seq<RequestRecord>, config: RateLimitConfig, now: int): Option<int>
  {
    if IsPositive(config.maxRequests) && IsPositive(config.requestWindowSeconds) then
      var windowMs := config.requestWindowSeconds.value * 1000;
      var recent := Newer(rs, now - windowMs);
      if |recent| >= config.maxRequests.value then Some(recent[0].timestamp + windowMs - now)
      else None
    else None
  }

  /** The wait the prompt-token quota asks for, if it is reached: until the first
      record of the last minute is a minute old. */
  function InputWait(rs: seq<RequestRecord>, config: RateLimitConfig, now: int): Option<int>
  {
    if IsPositive(config.maxInputTokensPerMinute)
       && PromptSum(Newer(rs, now - MINUTE_MS)) >= config.maxInputTokensPerMinute.value
    then
      match FindNewer(rs, now - MINUTE_MS)
      case Some(oldest) => Some(oldest.timestamp + MINUTE_MS - now)
      case None => None
    else None
  }

  /** The same for the completion-token quota. */
  function OutputWait(rs: seq<RequestRecord>, config: RateLimitConfig, now: int): Option<int>
  {
    if IsPositive(config.maxOutputTokensPerMinute)
       && CompletionSum(Newer(rs, now - MINUTE_MS)) >= config.maxOutputTokensPerMinute.value
    then
      match FindNewer(rs, now - MINUTE_MS)
      case Some(oldest) => Some(oldest.timestamp + MINUTE_MS - now)
      case None => None
    else None
  }

  /** `maxWait = Math.max(maxWait, wait)` for a check that may not have fired. */
  function Raise(acc: int, wait: Option<int>): int
  {
    if wait.Some? && wait.value > acc then wait.value else acc
  }

  /** The answer of `getWaitTimeMs` on already pruned records. */
  function WaitTime(rs: seq<RequestRecord>, config: RateLimitConfig, now: int): int
  {
    Raise(Raise(Raise(0, RequestWait(rs, config, now)), InputWait(rs, config, now)),
          OutputWait(rs, config, now))
  }

  predicate Sorted(rs: seq<RequestRecord>)
  {
    forall i, j :: 0 <= i < j < |rs| ==> rs[i].timestamp <= rs[j].timestamp
  }

  /** No record lies in the future of `now`. */
  predicate NotAfter(rs: seq<RequestRecord>, now: int)
  {
    forall i :: 0 <= i < |rs| ==> rs[i].timestamp <= now
  }

  class RateLimiter {
    var records: seq<RequestRecord>
    const config: RateLimitConfig
    /** Every record ever pushed, pruned or not. */
    ghost var history: seq<RequestRecord>

    constructor (config: RateLimitConfig)
      ensures this.config == config && records == [] && history == []
    {
      this.config := config;
      records := [];
      history := [];
    }

    /** Records a finished request at time `now`, then forgets records that
        are too old. */
    method RecordRequest(now: int, usage: Option<Usage>)
      modifies this
      ensures records == Prune(old(records) + [Stamp(now, usage)], now, MaxAge(config))
      ensures records == Prune(old(records), now, MaxAge(config)) + [Stamp(now, usage)]
      ensures old(Sorted(records) && NotAfter(records, now)) ==> Sorted(records) && NotAfter(records, now)
      ensures history == old(history) + [Stamp(now, usage)]
    {
      records := records + [Stamp(now, usage)];
      history := history + [Stamp(now, usage)];
      Cleanup(now);
      PruneAppendFresh(old(records), Stamp(now, usage), now, MaxAge(config));
      if old(Sorted(records) && NotAfter(records, now)) {
        RecordKeepsOrder(old(records), Stamp(now, usage), now, MaxAge(config));
      }
    }

    /** How long the next request has to wait at time `now`; 0 when it may
        start at once. Forgets records that are too old first. */
    method GetWaitTimeMs(now: int) returns (w: int)
      modifies this
      ensures records == Prune(old(records), now, MaxAge(config))
      ensures w == WaitTime(records, config, now)
      ensures old(Sorted(records)) ==> Sorted(records)
      ensures old(NotAfter(records, now)) ==> NotAfter(records, now)
      ensures history == old(history)
    {
      Cleanup(now);
      w := WaitOver(now);
    }

    /** The three quota checks of `getWaitTimeMs` on the records as they
        are, which the caller has already pruned. */
    method WaitOver(now: int) returns (w: int)
      ensures w == WaitTime(records, config, now)
    {
      var maxWait := 0;

      if IsPositive(config.maxRequests) && IsPositive(config.requestWindowSeconds) {
        var windowMs := config.requestWindowSeconds.value * 1000;
        var windowStart := now - windowMs;
        var recentRequests := Newer(records, windowStart);
        if |recentRequests| >= config.maxRequests.value {
          var oldest := recentRequests[0];
          var wait := oldest.timestamp + windowMs - now;
          maxWait := if wait > maxWait then wait else maxWait;
        }
      }

      if IsPositive(config.maxInputTokensPerMinute) {
        var minuteAgo := now - MINUTE_MS;
        var recentInputTokens := PromptSum(Newer(records, minuteAgo));
        if recentInputTokens >= config.maxInputTokensPerMinute.value {
          var oldestInWindow := FindNewer(records, minuteAgo);
          if oldestInWindow.Some? {
            var wait := oldestInWindow.value.timestamp + MINUTE_MS - now;
            maxWait := if wait > maxWait then wait else maxWait;
          }
        }
      }

      if IsPositive(config.maxOutputTokensPerMinute) {
        var minuteAgo := now - MINUTE_MS;
        var recentOutputTokens := CompletionSum(Newer(records, minuteAgo));
        if recentOutputTokens >= config.maxOutputTokensPerMinute.value {
          var oldestInWindow := FindNewer(records, minuteAgo);
          if oldestInWindow.Some? {
            var wait := oldestInWindow.value.timestamp + MINUTE_MS - now;
            maxWait := if wait > maxWait then wait else maxWait;
          }
        }
      }

      w := if maxWait > 0 then maxWait else 0;
    }

    /** Forgets the records older than `MaxAge(config)`. */
    method Cleanup(now: int)
      modifies this
      ensures records == Prune(old(records), now, MaxAge(config))
      ensures old(Sorted(records)) ==> Sorted(records)
      ensures old(NotAfter(records, now)) ==> NotAfter(records, now)
      ensures history == old(history)
    {
      var maxAge := MaxAge(config);
      PruneKeeps(records, now, maxAge);
      ghost var was := records;
      records := Prune(records, now, maxAge);
      if NotAfter(was, now) {
        forall i | 0 <= i < |records| ensures records[i].timestamp <= now {
          assert records[i] in was;
        }
      }
    }
  }

  /** Pruning keeps exactly the records young enough, in their order. */
  lemma {:induction false} PruneKeeps(rs: seq<RequestRecord>, now: int, maxAge: int)
    ensures forall r :: r in Prune(rs, now, maxAge) <==> r in rs && now - r.timestamp <= maxAge
    ensures |Prune(rs, now, maxAge)| <= |rs|
    ensures Sorted(rs) ==> Sorted(Prune(rs, now, maxAge))
  {
    if rs != [] {
      PruneKeeps(rs[1..], now, maxAge);
      assert rs == [rs[0]] + rs[1..];
      if Sorted(rs) {
        var p := Prune(rs, now, maxAge);
        var tail := Prune(rs[1..], now, maxAge);
        assert Sorted(rs[1..]);
        forall i, j | 0 <= i < j < |p| ensures p[i].timestamp <= p[j].timestamp {
          if now - rs[0].timestamp <= maxAge && i == 0 {
            assert p[j] in rs[1..];
          }
        }
      }
    }
  }

  /** A record stamped with the current time survives pruning, so appending
      then pruning is pruning then appending. */
  lemma {:induction false} PruneAppendFresh(rs: seq<RequestRecord>, x: RequestRecord, now: int, maxAge: int)
    requires x.timestamp == now && maxAge >= 0
    ensures Prune(rs + [x], now, maxAge) == Prune(rs, now, maxAge) + [x]
  {
    if rs == [] {
      assert Prune([x], now, maxAge) == [x] + Prune([], now, maxAge);
    } else {
      assert (rs + [x])[1..] == rs[1..] + [x];
      PruneAppendFresh(rs[1..], x, now, maxAge);
    }
  }

  /** With a non-decreasing clock the records stay in timestamp order and
      none lies in the future. */
  lemma RecordKeepsOrder(rs: seq<RequestRecord>, x: RequestRecord, now: int, maxAge: int)
    requires Sorted(rs) && NotAfter(rs, now)
    requires x.timestamp == now && maxAge >= 0
    ensures Sorted(Prune(rs + [x], now, maxAge)) && NotAfter(Prune(rs + [x], now, maxAge), now)
  {
    var s := rs + [x];
    assert Sorted(s) by {
      forall i, j | 0 <= i < j < |s| ensures s[i].timestamp <= s[j].timestamp {
        if j == |rs| {
          assert s[i] == rs[i];
        }
      }
    }
    PruneKeeps(s, now, maxAge);
    var p := Prune(s, now, maxAge);
    forall i | 0 <= i < |p| ensures p[i].timestamp <= now {
      assert p[i] in s;
    }
  }

  /** The records newer than `start` are exactly those of the list with a
      later timestamp, in their order. */
  lemma {:induction false} NewerKeeps(rs: seq<RequestRecord>, start: int)
    ensures forall r :: r in Newer(rs, start) <==> r in rs && r.timestamp > start
    ensures Sorted(rs) ==> Sorted(Newer(rs, start))
  {
    if rs != [] {
      NewerKeeps(rs[1..], start);
      assert rs == [rs[0]] + rs[1..];
      if Sorted(rs) {
        var p := Newer(rs, start);
        assert Sorted(rs[1..]);
        forall i, j | 0 <= i < j < |p| ensures p[i].timestamp <= p[j].timestamp {
          if rs[0].timestamp > start && i == 0 {
            assert p[j] in rs[1..];
          }
        }
      }
    }
  }

  /** `find` returns the first element `filter` keeps. */
  lemma {:induction false} FindIsFirstNewer(rs: seq<RequestRecord>, start: int)
    ensures FindNewer(rs, start) == if Newer(rs, start) == [] then None else Some(Newer(rs, start)[0])
  {
    if rs != [] {
      FindIsFirstNewer(rs[1..], start);
    }
  }

  /** In a sorted list the first record of a window is its oldest. */
  lemma FirstNewerIsOldest(rs: seq<RequestRecord>, start: int)
    requires Sorted(rs) && Newer(rs, start) != []
    ensures Newer(rs, start)[0].timestamp > start
    ensures forall r :: r in rs && r.timestamp > start ==> Newer(rs, start)[0].timestamp <= r.timestamp
  {
    NewerKeeps(rs, start);
    var p := Newer(rs, start);
    assert p[0] in p;
    forall r | r in rs && r.timestamp > start ensures p[0].timestamp <= r.timestamp {
      assert r in p;
      var k :| 0 <= k < |p| && p[k] == r;
      if k > 0 {
        assert p[0].timestamp <= p[k].timestamp;
      }
    }
  }

  /** A sum of token counts over no records is 0. */
  lemma {:induction false} SumsPositiveNeedRecords(rs: seq<RequestRecord>)
    ensures PromptSum(rs) > 0 ==> rs != []
    ensures CompletionSum(rs) > 0 ==> rs != []
  {
  }

  /** The request-count quota fires exactly when it is set and the window
      holds at least `maxRequests` records; its wait is the time until the
      window's first record leaves it, which lies in (0, windowMs] while no
      record is in the future. On sorted records that first record is the
      oldest of the window. */
  lemma RequestWaitSpec(rs: seq<RequestRecord>, config: RateLimitConfig, now: int)
    requires NotAfter(rs, now)
    ensures RequestWait(rs, config, now).Some? <==>
      IsPositive(config.maxRequests) && IsPositive(config.requestWindowSeconds)
      && |Newer(rs, now - config.requestWindowSeconds.value * 1000)| >= config.maxRequests.value
    ensures RequestWait(rs, config, now).Some? ==>
      var windowMs := config.requestWindowSeconds.value * 1000;
      var w := RequestWait(rs, config, now).value;
      0 < w <= windowMs
      && (Sorted(rs) ==> forall r :: r in rs && r.timestamp > now - windowMs ==> w <= r.timestamp + windowMs - now)
  {
    if RequestWait(rs, config, now).Some? {
      var windowMs := config.requestWindowSeconds.value * 1000;
      var p := Newer(rs, now - windowMs);
      assert RequestWait(rs, config, now).value == p[0].timestamp + windowMs - now;
      WindowHeadBounds(rs, now - windowMs, now);
      if Sorted(rs) {
        FirstNewerIsOldest(rs, now - windowMs);
      }
    }
  }

  /** The first record of a window lies inside it. */
  lemma WindowHeadBounds(rs: seq<RequestRecord>, start: int, now: int)
    requires NotAfter(rs, now) && Newer(rs, start) != []
    ensures start < Newer(rs, start)[0].timestamp <= now
  {
    var p := Newer(rs, start);
    NewerKeeps(rs, start);
    assert p[0] in p;
    assert p[0] in rs;
  }

  /** The prompt-token quota fires exactly when it is set and the last
      minute's prompt tokens reach it; the wait runs until the first record
      of that minute is a minute old, whatever that record's own token count,
      and lies in (0, 60000] while no record is in the future. */
  lemma InputWaitSpec(rs: seq<RequestRecord>, config: RateLimitConfig, now: int)
    requires NotAfter(rs, now)
    ensures InputWait(rs, config, now).Some? <==>
      IsPositive(config.maxInputTokensPerMinute)
      && PromptSum(Newer(rs, now - MINUTE_MS)) >= config.maxInputTokensPerMinute.value
    ensures InputWait(rs, config, now).Some? ==>
      var recent := Newer(rs, now - MINUTE_MS);
      var w := InputWait(rs, config, now).value;
      recent != [] && w == recent[0].timestamp + MINUTE_MS - now && 0 < w <= MINUTE_MS
  {
    var recent := Newer(rs, now - MINUTE_MS);
    FindIsFirstNewer(rs, now - MINUTE_MS);
    SumsPositiveNeedRecords(recent);
    NewerKeeps(rs, now - MINUTE_MS);
    if recent != [] {
      assert recent[0] in recent;
    }
  }

  /** The same for the completion-token quota. */
  lemma OutputWaitSpec(rs: seq<RequestRecord>, config: RateLimitConfig, now: int)
    requires NotAfter(rs, now)
    ensures OutputWait(rs, config, now).Some? <==>
      IsPositive(config.maxOutputTokensPerMinute)
      && CompletionSum(Newer(rs, now - MINUTE_MS)) >= config.maxOutputTokensPerMinute.value
    ensures OutputWait(rs, config, now).Some? ==>
      var recent := Newer(rs, now - MINUTE_MS);
      var w := OutputWait(rs, config, now).value;
      recent != [] && w == recent[0].timestamp + MINUTE_MS - now && 0 < w <= MINUTE_MS
  {
    var recent := Newer(rs, now - MINUTE_MS);
    FindIsFirstNewer(rs, now - MINUTE_MS);
    SumsPositiveNeedRecords(recent);
    NewerKeeps(rs, now - MINUTE_MS);
    if recent != [] {
      assert recent[0] in recent;
    }
  }

  /** The answer is never negative, covers every quota that fired, and is 0
      or the wait of one of them: the maximum over the fired checks. */
  lemma WaitTimeIsMax(rs: seq<RequestRecord>, config: RateLimitConfig, now: int)
    ensures var w := WaitTime(rs, config, now);
      var waits := [RequestWait(rs, config, now), InputWait(rs, config, now), OutputWait(rs, config, now)];
      w >= 0
      && (forall k :: 0 <= k < 3 && waits[k].Some? ==> w >= waits[k].value)
      && (w == 0 || exists k :: 0 <= k < 3 && waits[k] == Some(w))
  {
    var waits := [RequestWait(rs, config, now), InputWait(rs, config, now), OutputWait(rs, config, now)];
    var w := WaitTime(rs, config, now);
    if w != 0 {
      if OutputWait(rs, config, now) == Some(w) {
        assert waits[2] == Some(w);
      } else if InputWait(rs, config, now) == Some(w) {
        assert waits[1] == Some(w);
      } else {
        assert waits[0] == Some(w);
      }
    }
  }

  /** A limit with no positive quota never makes a request wait. */
  lemma DisabledNeverWaits(rs: seq<RequestRecord>, config: RateLimitConfig, now: int)
    requires !HasRateLimitEnabled(Some(config))
    ensures WaitTime(rs, config, now) == 0
  {
  }

  /** Once every record has left the window of each quota that is set, the
      next request may start at once. */
  lemma AgedOutNeverWaits(rs: seq<RequestRecord>, config: RateLimitConfig, now: int)
    requires IsPositive(config.maxRequests) && IsPositive(config.requestWindowSeconds) ==>
      forall i :: 0 <= i < |rs| ==> rs[i].timestamp <= now - config.requestWindowSeconds.value * 1000
    requires IsPositive(config.maxInputTokensPerMinute) || IsPositive(config.maxOutputTokensPerMinute) ==>
      forall i :: 0 <= i < |rs| ==> rs[i].timestamp <= now - MINUTE_MS
    ensures WaitTime(rs, config, now) == 0
  {
    if IsPositive(config.maxRequests) && IsPositive(config.requestWindowSeconds) {
      NoneNewer(rs, now - config.requestWindowSeconds.value * 1000);
    }
    if IsPositive(config.maxInputTokensPerMinute) || IsPositive(config.maxOutputTokensPerMinute) {
      NoneNewer(rs, now - MINUTE_MS);
    }
  }

  lemma NoneNewer(rs: seq<RequestRecord>, start: int)
    requires forall i :: 0 <= i < |rs| ==> rs[i].timestamp <= start
    ensures Newer(rs, start) == []
  {
    NewerKeeps(rs, start);
    if Newer(rs, start) != [] {
      assert Newer(rs, start)[0] in Newer(rs, start);
    }
  }
}

/**
 * src/lib/env.ts: the server's extraction settings read from the process
 * environment, the start-up warning about a half-filled configuration, and
 * the rate-limit numbers.
 *
 * The environment is a map from variable names to values; a name that is
 * not in the map is unset.
 */
module Env {
  import opened Wrappers
  import opened Text

  type Environment = map<string, string>

  const EXTRACT_BASE_URL: string := "EXTRACT_BASE_URL"
  const EXTRACT_MODEL_ID: string := "EXTRACT_MODEL_ID"
  const EXTRACT_API_KEY: string := "EXTRACT_API_KEY"
  const EXTRACT_RATE_LIMIT_MAX_REQUESTS: string := "EXTRACT_RATE_LIMIT_MAX_REQUESTS"
  const EXTRACT_RATE_LIMIT_REQUEST_WINDOW_SECONDS: string := "EXTRACT_RATE_LIMIT_REQUEST_WINDOW_SECONDS"
  const EXTRACT_RATE_LIMIT_MAX_INPUT_TPM: string := "EXTRACT_RATE_LIMIT_MAX_INPUT_TPM"
  const EXTRACT_RATE_LIMIT_MAX_OUTPUT_TPM: string := "EXTRACT_RATE_LIMIT_MAX_OUTPUT_TPM"

  /** The three variables `validateEnv` looks at, in its order. */
  const EXTRACTION_VARS: seq<string> := [EXTRACT_BASE_URL, EXTRACT_MODEL_ID, EXTRACT_API_KEY]

  /** `process.env[key]` */
  function Lookup(env: Environment, key: string): Option<string>
  {
    if key in env then Some(env[key]) else None
  }

  /** `requireEnvOrEmpty(key)`: the value, or "" when unset. */
  function RequireEnvOrEmpty(env: Environment, key: string): (v: string)
    ensures key in env ==> v == env[key]
    ensures key !in env ==> v == ""
  {
    Lookup(env, key).GetOr("")
  }

  /** `Boolean(process.env[key])`: set to a non-empty value. */
  predicate IsSet(env: Environment, key: string)
  {
    key in env && env[key] != ""
  }

  /** The keys of `keys` that are not set, in order. */
  function Missing(env: Environment, keys: seq<string>): (m: seq<string>)
    ensures |m| <= |keys|
  {
    if keys == [] then []
    else (if IsSet(env, keys[0]) then [] else [keys[0]]) + Missing(env, keys[1..])
  }

  /** The missing keys are exactly the listed keys that are unset. */
  lemma {:induction false} MissingMembers(env: Environment, keys: seq<string>)
    ensures forall k :: k in Missing(env, keys) <==> k in keys && !IsSet(env, k)
  {
    if keys != [] {
      MissingMembers(env, keys[1..]);
      assert keys == [keys[0]] + keys[1..];
    }
  }

  /** `Missing` of a concatenation is the two parts' `Missing` in turn.
      With `MissingOne` this puts the missing keys in the order, and as
      often, as they are listed. */
  lemma {:induction false} MissingConcat(env: Environment, a: seq<string>, b: seq<string>)
    ensures Missing(env, a + b) == Missing(env, a) + Missing(env, b)
  {
    if a == [] {
      assert a + b == b;
    } else {
      MissingConcat(env, a[1..], b);
      assert a == [a[0]] + a[1..];
      assert a + b == [a[0]] + (a[1..] + b);
      MissingConsStep(env, a[0], a[1..] + b, a[1..], Missing(env, b));
    }
  }

  /** Putting one key in front of two lists whose `Missing` agree up to a
      common tail keeps them agreeing. */
  lemma MissingConsStep(env: Environment, k: string, t: seq<string>, a: seq<string>, rb: seq<string>)
    requires Missing(env, t) == Missing(env, a) + rb
    ensures Missing(env, [k] + t) == Missing(env, [k] + a) + rb
  {
    var h := if IsSet(env, k) then [] else [k];
    calc {
      Missing(env, [k] + t);
      { MissingCons(env, k, t); }
      h + Missing(env, t);
      h + (Missing(env, a) + rb);
      { assert h + (Missing(env, a) + rb) == (h + Missing(env, a)) + rb; }
      (h + Missing(env, a)) + rb;
      { MissingCons(env, k, a); }
      Missing(env, [k] + a) + rb;
    }
  }

  /** `Missing` of a list with one more key in front. */
  lemma MissingCons(env: Environment, k: string, t: seq<string>)
    ensures Missing(env, [k] + t) == (if IsSet(env, k) then [] else [k]) + Missing(env, t)
  {
    assert ([k] + t)[0] == k && ([k] + t)[1..] == t;
  }

  /** One key is missing exactly when it is unset. */
  lemma MissingOne(env: Environment, k: string)
    ensures Missing(env, [k]) == if IsSet(env, k) then [] else [k]
  {
    assert [k][1..] == [];
  }

  /** `validateEnv()`: the warning it prints, if any. */
  function IncompleteWarning(env: Environment): (w: Option<string>)
  {
    var missing := Missing(env, EXTRACTION_VARS);
    if |missing| > 0 && |missing| < |EXTRACTION_VARS| then
      Some("[env] Incomplete extraction config: " + Join(missing, ", ") + " not set. " +
           "Set all three variables or none.")
    else None
  }

  /** The count of missing variables tells whether some are set. */
  lemma {:induction false} MissingCount(env: Environment, keys: seq<string>)
    ensures |Missing(env, keys)| < |keys| <==> exists k :: k in keys && IsSet(env, k)
  {
    if keys != [] {
      MissingCount(env, keys[1..]);
      MissingMembers(env, keys[1..]);
      if IsSet(env, keys[0]) {
        assert keys[0] in keys;
      } else {
        forall k | k in keys && IsSet(env, k) ensures k in keys[1..] {
          assert k != keys[0];
        }
      }
    }
  }

  /** The warning fires exactly when some, but not all, of the three
      extraction variables are set, and it names the missing ones. */
  lemma WarningSpec(env: Environment)
    ensures IncompleteWarning(env).Some? <==>
      (exists k :: k in EXTRACTION_VARS && IsSet(env, k)) && (exists k :: k in EXTRACTION_VARS && !IsSet(env, k))
  {
    MissingCount(env, EXTRACTION_VARS);
    MissingMembers(env, EXTRACTION_VARS);
    var missing := Missing(env, EXTRACTION_VARS);
    if exists k :: k in EXTRACTION_VARS && !IsSet(env, k) {
      var k :| k in EXTRACTION_VARS && !IsSet(env, k);
      assert k in missing;
    }
    if |missing| > 0 {
      assert missing[0] in missing;
    }
  }

  function BaseUrl(env: Environment): string { RequireEnvOrEmpty(env, EXTRACT_BASE_URL) }
  function ModelId(env: Environment): string { RequireEnvOrEmpty(env, EXTRACT_MODEL_ID) }
  function ApiKey(env: Environment): string { RequireEnvOrEmpty(env, EXTRACT_API_KEY) }

  /** `isConfigured`: base URL, model id and key are all non-empty. */
  predicate IsConfigured(env: Environment)
  {
    BaseUrl(env) != "" && ModelId(env) != "" && ApiKey(env) != ""
  }

  /** A configured server never warns; an empty environment does not
      either. */
  lemma ConfiguredIsQuiet(env: Environment)
    ensures IsConfigured(env) ==> IncompleteWarning(env).None?
    ensures IsConfigured(env) <==> forall k :: k in EXTRACTION_VARS ==> IsSet(env, k)
    ensures (forall k :: k in EXTRACTION_VARS ==> !IsSet(env, k)) ==> IncompleteWarning(env).None?
  {
    WarningSpec(env);
    if IsConfigured(env) {
      forall k | k in EXTRACTION_VARS ensures IsSet(env, k) {
        assert k == EXTRACT_BASE_URL || k == EXTRACT_MODEL_ID || k == EXTRACT_API_KEY;
      }
    }
    if forall k :: k in EXTRACTION_VARS ==> IsSet(env, k) {
      assert IsSet(env, EXTRACTION_VARS[0]) && IsSet(env, EXTRACTION_VARS[1]) && IsSet(env, EXTRACTION_VARS[2]);
    }
  }

  /** An optional sign and a decimal digit string, the part of JavaScript's
      numeric string grammar this model reads. */
  function DecimalValue(t: string): (v: Option<int>)
    ensures v.Some? ==> t != []
  {
    if t != [] && (t[0] == '+' || t[0] == '-') then
      var digits := t[1..];
      if digits != [] && AllDigits(digits) then
        var x: int := DigitsValue(digits);
        Some(if t[0] == '-' then -x else x)
      else None
    else if t != [] && AllDigits(t) then Some(DigitsValue(t))
    else None
  }

  /** `Number(v) || 0`: an unset, blank or unreadable value is 0. */
  function NumberOrZero(v: Option<string>): (n: int)
    ensures v.None? ==> n == 0
    ensures v.Some? && Trim(v.value) == "" ==> n == 0
  {
    match v
    case None => 0
    case Some(s) =>
      match DecimalValue(Trim(s))
      case None => 0
      case Some(x) => x
  }

  /** A number written in decimal, with whitespace around it, is read
      back. */
  lemma NumberOrZeroReads(w1: string, n: nat, w2: string)
    requires AllSpace(w1) && AllSpace(w2)
    ensures NumberOrZero(Some(w1 + NatToString(n) + w2)) == n
  {
    var d := NatToString(n);
    NatToStringValue(n);
    assert !IsSpace(d[0]) && !IsSpace(d[|d| - 1]);
    TrimPadded(w1, d, w2);
  }

  /** Text that starts with neither a digit, a sign nor whitespace reads as
      0. */
  lemma UnreadableIsZero(junk: string)
    requires junk != [] && !IsDigit(junk[0]) && junk[0] != '+' && junk[0] != '-' && !IsSpace(junk[0])
    ensures NumberOrZero(Some(junk)) == 0
  {
    TrimIsSlice(junk);
    var t := Trim(junk);
    if t != [] {
      assert t[0] == junk[0];
    }
  }

  function RateLimitMaxRequests(env: Environment): int { NumberOrZero(Lookup(env, EXTRACT_RATE_LIMIT_MAX_REQUESTS)) }
  function RateLimitRequestWindowSeconds(env: Environment): int { NumberOrZero(Lookup(env, EXTRACT_RATE_LIMIT_REQUEST_WINDOW_SECONDS)) }
  function RateLimitMaxInputTPM(env: Environment): int { NumberOrZero(Lookup(env, EXTRACT_RATE_LIMIT_MAX_INPUT_TPM)) }
  function RateLimitMaxOutputTPM(env: Environment): int { NumberOrZero(Lookup(env, EXTRACT_RATE_LIMIT_MAX_OUTPUT_TPM)) }

  /** An unset rate-limit variable reads as 0. */
  lemma UnsetLimitsAreZero(env: Environment)
    requires EXTRACT_RATE_LIMIT_MAX_REQUESTS !in env && EXTRACT_RATE_LIMIT_MAX_INPUT_TPM !in env
    requires EXTRACT_RATE_LIMIT_MAX_OUTPUT_TPM !in env && EXTRACT_RATE_LIMIT_REQUEST_WINDOW_SECONDS !in env
    ensures RateLimitMaxRequests(env) == 0 && RateLimitRequestWindowSeconds(env) == 0
    ensures RateLimitMaxInputTPM(env) == 0 && RateLimitMaxOutputTPM(env) == 0
  {
  }
}

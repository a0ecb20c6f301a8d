/**
 * `verifyAuth` of src/lib/auth.ts: the bearer-token check (the
 * `Authorization: Bearer` header of section 2.1 of RFC 6750) that guards
 * the DOCX conversion route.
 *
 * The configured token is a parameter: "" stands for an unset
 * `ACCESS_TOKEN`. `crypto.timingSafeEqual` is modelled by its result only.
 */
module Auth {
  import opened Wrappers
  import opened Text

  const BEARER: string := "Bearer "
  const NO_TOKEN_ERROR: string := "未提供访问密钥"
  const BAD_TOKEN_ERROR: string := "访问密钥无效"

  /** `null` (the request may go on) or the JSON 401 response. */
  datatype AuthOutcome = Pass | Reject(status: int, error: string)

  /** `verifyAuth(req)` for the configured `token` and the request's
      `Authorization` header. */
  function VerifyAuth(token: string, header: Option<string>): (r: AuthOutcome)
    ensures r.Reject? ==> r.status == 401
    ensures r.Reject? ==> token != ""
  {
    if token == "" then Pass
    else if header.None? || !StartsWith(header.value, BEARER) then Reject(401, NO_TOKEN_ERROR)
    else
      var provided := header.value[|BEARER|..];
      if Utf8Length(token) != Utf8Length(provided) then Reject(401, BAD_TOKEN_ERROR)
      else if provided != token then Reject(401, BAD_TOKEN_ERROR)
      else Pass
  }

  /** A request passes exactly when no token is configured or its header is
      `Bearer ` followed by the token. */
  lemma PassesIff(token: string, header: Option<string>)
    ensures VerifyAuth(token, header) == Pass <==> token == "" || header == Some(BEARER + token)
  {
    if token != "" && header.Some? && StartsWith(header.value, BEARER) {
      var h := header.value;
      assert h == h[..|BEARER|] + h[|BEARER|..];
      assert (BEARER + token)[|BEARER|..] == token;
    }
  }

  /** Which message a rejection carries: a missing or non-bearer header is
      told apart from a wrong token, whether its length differs or not. */
  lemma RejectionMessages(token: string, header: Option<string>)
    requires token != ""
    ensures header.None? || !StartsWith(header.value, BEARER) ==>
      VerifyAuth(token, header) == Reject(401, NO_TOKEN_ERROR)
    ensures header.Some? && StartsWith(header.value, BEARER) && header != Some(BEARER + token) ==>
      VerifyAuth(token, header) == Reject(401, BAD_TOKEN_ERROR)
  {
    PassesIff(token, header);
  }

  /** A candidate whose UTF-8 length differs from the token's is refused. */
  lemma LengthMismatchRejected(token: string, candidate: string)
    requires token != "" && Utf8Length(candidate) != Utf8Length(token)
    ensures VerifyAuth(token, Some(BEARER + candidate)) == Reject(401, BAD_TOKEN_ERROR)
  {
    assert (BEARER + candidate)[|BEARER|..] == candidate;
  }
}

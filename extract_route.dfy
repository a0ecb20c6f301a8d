/**
 * The checks `POST` in src/app/api/extract/route.ts makes before it calls
 * the provider: the JSON body, the image size, the configuration with the
 * server's values as fallback, the prompt and the image URL (a `data:` URL
 * of section 3 of RFC 2397).
 *
 * The provider call and the streamed reply are not modelled: a request that
 * passes every check ends in `CallProvider` with what would be sent.
 */
module ExtractRoute {
  import opened Wrappers
  import opened Text
  import opened Env

  /** The body's fields; `None` is a field that is absent. */
  datatype ExtractBody = ExtractBody(
    imageBase64: Option<string>,
    baseUrl: Option<string>,
    modelId: Option<string>,
    apiKey: Option<string>,
    customPrompt: Option<string>)

  /** `20 * 1024 * 1024` characters of base64. */
  const MAX_BASE64_SIZE: int := 20 * 1024 * 1024

  const DEFAULT_PROMPT: string := "请将图片中的文档内容转换为 Markdown 格式。"
  const PNG_DATA_PREFIX: string := "data:image/png;base64,"
  const INVALID_JSON_ERROR: string := "Invalid JSON body"
  const TOO_LARGE_ERROR: string := "Image too large. Maximum 15MB per page."
  const MISSING_CONFIG_ERROR: string :=
    "Missing required config. Set EXTRACT_BASE_URL, EXTRACT_MODEL_ID, EXTRACT_API_KEY in .env.local or provide via settings."

  /** What is sent to the provider. */
  datatype ProviderRequest = ProviderRequest(
    baseUrl: string, modelId: string, apiKey: string, prompt: string, imageUrl: string)

  datatype Decision = Reject(status: int, error: string) | CallProvider(request: ProviderRequest)

  /** `value || fallback` for an optional string. */
  function OrElse(value: Option<string>, fallback: string): (r: string)
    ensures r == fallback || (value.Some? && r == value.value && r != "")
    ensures r == "" ==> fallback == ""
  {
    if value.Some? && value.value != "" then value.value else fallback
  }

  /** The image as a URL: a `data:` URL passes through, anything else is
      taken as bare base64 of a PNG. */
  function ImageUrl(image: string): (u: string)
    ensures StartsWith(u, "data:")
    ensures StartsWith(image, "data:") ==> u == image
    ensures !StartsWith(image, "data:") ==> u == PNG_DATA_PREFIX + image
  {
    if StartsWith(image, "data:") then image else PNG_DATA_PREFIX + image
  }

  /** Making a URL of a URL changes nothing. */
  lemma ImageUrlIdempotent(image: string)
    ensures ImageUrl(ImageUrl(image)) == ImageUrl(image)
  {
  }

  /** `POST(req)` up to the provider call, for the parsed body (`None` when
      it is not JSON) and the server's environment. */
  function HandleExtract(body: Option<ExtractBody>, env: Environment): (d: Decision)
    ensures d.Reject? ==> d.status == 400 || d.status == 413
    ensures d.CallProvider? ==>
      && d.request.baseUrl != "" && d.request.modelId != "" && d.request.apiKey != ""
      && d.request.prompt != "" && StartsWith(d.request.imageUrl, "data:")
  {
    if body.None? then Reject(400, INVALID_JSON_ERROR)
    else
      var b := body.value;
      var image := b.imageBase64.GetOr("");
      if image != "" && Utf16Length(image) > MAX_BASE64_SIZE then Reject(413, TOO_LARGE_ERROR)
      else
        var baseUrl := OrElse(b.baseUrl, BaseUrl(env));
        var modelId := OrElse(b.modelId, ModelId(env));
        var apiKey := OrElse(b.apiKey, ApiKey(env));
        if image == "" || baseUrl == "" || modelId == "" || apiKey == "" then Reject(400, MISSING_CONFIG_ERROR)
        else CallProvider(ProviderRequest(baseUrl, modelId, apiKey, OrElse(b.customPrompt, DEFAULT_PROMPT),
                                          ImageUrl(image)))
  }

  /** The decision chain: a body that is not JSON is refused first, then an
      oversized image (before the configuration is looked at), then a
      missing image or configuration field; every field falls back to the
      server's value when the request leaves it empty. */
  lemma HandleExtractSpec(body: Option<ExtractBody>, env: Environment)
    ensures body.None? ==> HandleExtract(body, env) == Reject(400, INVALID_JSON_ERROR)
    ensures body.Some? ==>
      var b := body.value;
      var image := b.imageBase64.GetOr("");
      var baseUrl := OrElse(b.baseUrl, BaseUrl(env));
      var modelId := OrElse(b.modelId, ModelId(env));
      var apiKey := OrElse(b.apiKey, ApiKey(env));
      && (Utf16Length(image) > MAX_BASE64_SIZE ==> HandleExtract(body, env) == Reject(413, TOO_LARGE_ERROR))
      && (Utf16Length(image) <= MAX_BASE64_SIZE ==>
            (HandleExtract(body, env).Reject? <==>
               image == "" || baseUrl == "" || modelId == "" || apiKey == ""))
      && (HandleExtract(body, env).CallProvider? ==>
            HandleExtract(body, env).request
              == ProviderRequest(baseUrl, modelId, apiKey, OrElse(b.customPrompt, DEFAULT_PROMPT), ImageUrl(image)))
  {
  }

  /** A complete server configuration serves every request that brings a
      small enough image, whatever configuration the request leaves out. */
  lemma ConfiguredServerAccepts(image: string, env: Environment, prompt: Option<string>)
    requires IsConfigured(env) && image != "" && Utf16Length(image) <= MAX_BASE64_SIZE
    ensures HandleExtract(Some(ExtractBody(Some(image), None, None, None, prompt)), env)
         == CallProvider(ProviderRequest(BaseUrl(env), ModelId(env), ApiKey(env),
                                         OrElse(prompt, DEFAULT_PROMPT), ImageUrl(image)))
  {
  }
}

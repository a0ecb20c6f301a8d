/**
 * The settings types of src/features/settings/types.ts: a provider
 * configuration, its optional rate limit, the default prompt and the presets.
 */
module SettingsTypes {
  import opened Wrappers

  /** The optional quotas of a rate limit. A field left out of the JavaScript
      object is `None`; every reader treats it like 0. */
  datatype RateLimitConfig = RateLimitConfig(
    maxRequests: Option<int>,
    requestWindowSeconds: Option<int>,
    maxInputTokensPerMinute: Option<int>,
    maxOutputTokensPerMinute: Option<int>)

  /** `x && x > 0` on an optional number. */
  predicate IsPositive(x: Option<int>)
  {
    x.Some? && x.value > 0
  }

  /** `hasRateLimitEnabled`: some quota is set to a positive number; a request
      window on its own does not limit anything. */
  predicate HasRateLimitEnabled(rl: Option<RateLimitConfig>)
  {
    rl.Some? &&
    (IsPositive(rl.value.maxRequests) || IsPositive(rl.value.maxInputTokensPerMinute)
     || IsPositive(rl.value.maxOutputTokensPerMinute))
  }

  /** A provider configuration as the store keeps it; `apiKey` is stored encoded. */
  datatype ModelConfig = ModelConfig(
    id: string,
    name: string,
    baseUrl: string,
    modelId: string,
    apiKey: string,
    customPrompt: string,
    isActive: bool,
    rateLimit: Option<RateLimitConfig>)

  /** A configuration without its id (`Omit<ModelConfig, "id">`): what the
      settings form edits and what `addConfig` receives. */
  datatype ConfigDraft = ConfigDraft(
    name: string,
    baseUrl: string,
    modelId: string,
    apiKey: string,
    customPrompt: string,
    isActive: bool,
    rateLimit: Option<RateLimitConfig>)

  /** A preset: a configuration without id, key and active flag. */
  datatype Preset = Preset(name: string, baseUrl: string, modelId: string, customPrompt: string)

  const DEFAULT_EXTRACT_PROMPT: string :=
    "你是一个专业的文档解析助手。请将图片中的文档内容转换为结构化的 Markdown 格式。\n\n"
    + "要求：\n"
    + "1. 保持原文档的标题层级（使用 # ## ### 等）\n"
    + "2. 正确识别并转换表格为 Markdown 表格\n"
    + "3. 保持列表格式（有序/无序）\n"
    + "4. 使用原始 Unicode 符号（如 ≤ ≥ ± × ÷ ≈ ≠），不要转成 LaTeX 数学公式；仅对复杂数学公式使用 LaTeX\n"
    + "5. 忽略页眉、页脚、页码、水印等非正文内容\n"
    + "6. 保持原文语言，不要翻译\n"
    + "7. 只输出 Markdown 内容，不要添加额外的解释或说明\n"
    + "8. 直接输出 Markdown 原文，禁止用 ```markdown 代码块包裹"

  const MODEL_PRESETS: seq<Preset> := [
    Preset("Qwen-VL-Plus (阿里云)", "https://dashscope.aliyuncs.com/compatible-mode/v1", "qwen-vl-plus", DEFAULT_EXTRACT_PROMPT),
    Preset("Qwen-VL-Max (阿里云)", "https://dashscope.aliyuncs.com/compatible-mode/v1", "qwen-vl-max", DEFAULT_EXTRACT_PROMPT),
    Preset("GPT-4o (OpenAI)", "https://api.openai.com/v1", "gpt-4o", DEFAULT_EXTRACT_PROMPT),
    Preset("Gemini 2.0 Flash", "https://generativelanguage.googleapis.com/v1beta/openai", "gemini-2.0-flash", DEFAULT_EXTRACT_PROMPT)
  ]
}

/** Configuration selection (lib/config.ts) as functions of the environment. */
module Config {
  import opened Wrappers
  import opened Environment

  const ApiProviderVar := "API_PROVIDER"
  const CustomUrlVar := "CUSTOM_API_URL"
  const CustomKeyVar := "CUSTOM_API_KEY"
  const CustomModelVar := "CUSTOM_API_MODEL"
  const CustomMaxTokensVar := "CUSTOM_API_MAX_TOKENS"
  const CustomTemperatureVar := "CUSTOM_API_TEMPERATURE"
  const OpenAIKeyVar := "OPENAI_API_KEY"
  const OpenAIModelVar := "OPENAI_MODEL"
  const OpenAIMaxTokensVar := "OPENAI_MAX_TOKENS"
  const OpenAITemperatureVar := "OPENAI_TEMPERATURE"
  const NtfyUrlVar := "NTFY_URL"
  const PublicNtfyUrlVar := "NEXT_PUBLIC_NTFY_URL"
  const PasswordHashVar := "ADMIN_PASSWORD_HASH"

  const OpenAIBaseUrl := "https://api.openai.com/v1"
  const DefaultModel := "gpt-3.5-turbo"
  const DefaultMaxTokens := "1000"
  const DefaultTemperature := "0.7"

  const PasswordHashMissing := "ADMIN_PASSWORD_HASH environment variable is required"
  const PasswordHashError := "ADMIN_PASSWORD_HASH is required"
  const ApiConfigError := "API configuration is incomplete"

  datatype Provider = OpenAI | Custom

  /** The settings of the grammar-correction provider. The token limit and
      the temperature are kept as the raw setting text; parsing them into
      numbers is not modelled. */
  datatype ApiConfig = ApiConfig(
    provider: Provider,
    url: string,
    apiKey: string,
    model: string,
    maxTokens: string,
    temperature: string)

  /** The configured provider name, `'openai'` when unset or empty. */
  function ProviderName(env: Env): string {
    OrElse(env, ApiProviderVar, "openai")
  }

  /** `getApiConfig`: the custom provider only for the exact name `custom`
      and only with both its URL and key set; every other name takes the
      OpenAI path, which needs the OpenAI key. A returned configuration
      always has a non-empty URL, key and model. */
  function GetApiConfig(env: Env): (c: Option<ApiConfig>)
    ensures ProviderName(env) == "custom" ==>
      (c.Some? <==> IsSet(env, CustomUrlVar) && IsSet(env, CustomKeyVar))
    ensures ProviderName(env) != "custom" ==> (c.Some? <==> IsSet(env, OpenAIKeyVar))
    ensures c.Some? ==> (c.value.provider == Custom <==> ProviderName(env) == "custom")
    ensures c.Some? && c.value.provider == OpenAI ==>
      c.value.url == OpenAIBaseUrl && c.value.apiKey == env[OpenAIKeyVar]
    ensures c.Some? && c.value.provider == Custom ==>
      c.value.url == env[CustomUrlVar] && c.value.apiKey == env[CustomKeyVar]
    ensures c.Some? ==> c.value.url != "" && c.value.apiKey != "" && c.value.model != ""
    // The remaining settings come from the chosen provider's own variables,
    // each falling back to its default when unset or empty.
    ensures c.Some? && c.value.provider == Custom ==>
      && c.value.model == (if IsSet(env, CustomModelVar) then env[CustomModelVar] else DefaultModel)
      && c.value.maxTokens == (if IsSet(env, CustomMaxTokensVar) then env[CustomMaxTokensVar] else DefaultMaxTokens)
      && c.value.temperature == (if IsSet(env, CustomTemperatureVar) then env[CustomTemperatureVar] else DefaultTemperature)
    ensures c.Some? && c.value.provider == OpenAI ==>
      && c.value.model == (if IsSet(env, OpenAIModelVar) then env[OpenAIModelVar] else DefaultModel)
      && c.value.maxTokens == (if IsSet(env, OpenAIMaxTokensVar) then env[OpenAIMaxTokensVar] else DefaultMaxTokens)
      && c.value.temperature == (if IsSet(env, OpenAITemperatureVar) then env[OpenAITemperatureVar] else DefaultTemperature)
  {
    if ProviderName(env) == "custom" then
      if !IsSet(env, CustomUrlVar) || !IsSet(env, CustomKeyVar) then None
      else Some(ApiConfig(
        Custom,
        env[CustomUrlVar],
        env[CustomKeyVar],
        OrElse(env, CustomModelVar, DefaultModel),
        OrElse(env, CustomMaxTokensVar, DefaultMaxTokens),
        OrElse(env, CustomTemperatureVar, DefaultTemperature)))
    else if !IsSet(env, OpenAIKeyVar) then None
    else Some(ApiConfig(
      OpenAI,
      OpenAIBaseUrl,
      env[OpenAIKeyVar],
      OrElse(env, OpenAIModelVar, DefaultModel),
      OrElse(env, OpenAIMaxTokensVar, DefaultMaxTokens),
      OrElse(env, OpenAITemperatureVar, DefaultTemperature)))
  }

  /** Whichever provider is chosen, leaving its own model variable unset
      means the default model, whatever the other provider's says. */
  lemma ModelDefaults(env: Env)
    requires GetApiConfig(env).Some?
    ensures GetApiConfig(env).value.provider == Custom && !IsSet(env, CustomModelVar) ==>
      GetApiConfig(env).value.model == DefaultModel
    ensures GetApiConfig(env).value.provider == OpenAI && !IsSet(env, OpenAIModelVar) ==>
      GetApiConfig(env).value.model == DefaultModel
  {
  }

  /** The provider not chosen is never consulted: changing its model
      variable leaves the configuration as it was. */
  lemma OtherProviderModelIgnored(env: Env, v: string)
    ensures ProviderName(env) == "custom" ==> GetApiConfig(env[OpenAIModelVar := v]) == GetApiConfig(env)
    ensures ProviderName(env) != "custom" ==> GetApiConfig(env[CustomModelVar := v]) == GetApiConfig(env)
  {
    var e1, e2 := env[OpenAIModelVar := v], env[CustomModelVar := v];
    assert forall n :: n != OpenAIModelVar ==> Lookup(e1, n) == Lookup(env, n);
    assert forall n :: n != CustomModelVar ==> Lookup(e2, n) == Lookup(env, n);
  }

  /** `getNtfyUrl`: `NTFY_URL` when it is non-empty, else whatever
      `NEXT_PUBLIC_NTFY_URL` holds (possibly nothing, possibly empty). */
  function GetNtfyUrl(env: Env): (u: Option<string>)
    ensures IsSet(env, NtfyUrlVar) ==> u == Some(env[NtfyUrlVar])
    ensures !IsSet(env, NtfyUrlVar) ==> u == Lookup(env, PublicNtfyUrlVar)
  {
    if IsSet(env, NtfyUrlVar) then Some(env[NtfyUrlVar]) else Lookup(env, PublicNtfyUrlVar)
  }

  /** `getAdminPasswordHash`: the configured hash unchanged, or the error the
      source throws when it is unset or empty. */
  function GetAdminPasswordHash(env: Env): (r: Result<string, string>)
    ensures r.Success? <==> IsSet(env, PasswordHashVar)
    ensures r.Success? ==> r.value == env[PasswordHashVar] && r.value != ""
    ensures r.Failure? ==> r.error == PasswordHashMissing
  {
    if IsSet(env, PasswordHashVar) then Success(env[PasswordHashVar])
    else Failure(PasswordHashMissing)
  }

  datatype Validation = Validation(isValid: bool, errors: seq<string>)

  /** `validateEnvironment`: valid exactly when there is no error; the hash
      error is reported exactly when the hash is missing, the configuration
      error exactly when no provider configuration can be built, in that
      order. */
  function ValidateEnvironment(env: Env): (v: Validation)
    ensures v.isValid <==> v.errors == []
    ensures v.isValid <==> IsSet(env, PasswordHashVar) && GetApiConfig(env).Some?
    ensures forall e :: e in v.errors ==> e == PasswordHashError || e == ApiConfigError
    ensures PasswordHashError in v.errors <==> !IsSet(env, PasswordHashVar)
    ensures ApiConfigError in v.errors <==> GetApiConfig(env).None?
    ensures |v.errors| <= 2
    ensures |v.errors| == 2 ==> v.errors == [PasswordHashError, ApiConfigError]
  {
    var hashErrors := if IsSet(env, PasswordHashVar) then [] else [PasswordHashError];
    var errors := hashErrors + (if GetApiConfig(env).None? then [ApiConfigError] else []);
    Validation(errors == [], errors)
  }

  /** A valid environment is one in which the admin hash can be read and a
      provider configuration can be built, and conversely. */
  lemma ValidMeansUsable(env: Env)
    ensures ValidateEnvironment(env).isValid <==> GetAdminPasswordHash(env).Success? && GetApiConfig(env).Some?
  {
  }
}

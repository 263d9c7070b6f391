/** The consumer dashboard's two proxies to the API: GET /api/messages passes
    the upstream body through or answers 500; GET /api/tenants normalises the
    upstream statistics and falls back to all-zero statistics on any failure. */
module ConsumerProxy {
  import opened Wrappers
  import opened JsInt

  /** TENANT_NAME when the environment variable is unset or empty. */
  const DefaultTenantName := "default-tenant"
  /** The page size asked of the API when the dashboard names none. */
  const DefaultLimit := "50"
  const DefaultEnvironment := "prod"

  /** `value || fallback` on a possibly missing string: both a missing value
      and the empty string are falsy. */
  function OrElse(value: Option<string>, fallback: string): (r: string)
    ensures value.None? || value.value == "" ==> r == fallback
    ensures value.Some? && value.value != "" ==> r == value.value
  {
    match value
    case Some(v) => if v == "" then fallback else v
    case None => fallback
  }

  /** `value || null`: a falsy string becomes null. */
  function OrNull(value: Option<string>): (r: Option<string>)
    ensures r.None? <==> value.None? || value.value == ""
    ensures r.Some? ==> r == value
  {
    if value.Some? && value.value != "" then value else None
  }

  /** process.env.TENANT_NAME || "default-tenant": never empty. */
  function TenantName(setting: Option<string>): (name: string)
    ensures name != ""
    ensures setting.Some? && setting.value != "" ==> name == setting.value
  {
    OrElse(setting, DefaultTenantName)
  }

  /** The query the messages proxy forwards to the API. */
  datatype MessagesQuery = MessagesQuery(environment: string, limit: string)

  /** `req.query.limit || 50` and `req.query.environment || "prod"`: an absent
      or empty parameter takes its default, so neither is ever forwarded empty. */
  function MessagesQueryFor(limit: Option<string>, environment: Option<string>): (q: MessagesQuery)
    ensures q.limit != "" && q.environment != ""
    ensures limit.None? || limit.value == "" ==> q.limit == DefaultLimit
    ensures limit.Some? && limit.value != "" ==> q.limit == limit.value
    ensures environment.None? || environment.value == "" ==> q.environment == DefaultEnvironment
    ensures environment.Some? && environment.value != "" ==> q.environment == environment.value
  {
    MessagesQuery(OrElse(environment, DefaultEnvironment), OrElse(limit, DefaultLimit))
  }

  /** What `fetch` yields: no response at all, or a status and the body,
      which is None when `response.json()` cannot produce a JSON object. */
  datatype Upstream<T> = Unreachable | Response(status: int, body: Option<T>)

  datatype FetchFailure = NetworkError | BadStatus(status: int) | MalformedBody

  datatype Fetched<T> = Fetched(data: T) | FetchFailed(reason: FetchFailure)

  /** `response.ok`: a 2xx status. */
  predicate IsOkStatus(status: int) {
    200 <= status <= 299
  }

  /** fetch, the `response.ok` check, then `response.json()`; the first step
      that fails decides the failure. */
  function ReadJson<T>(upstream: Upstream<T>): (r: Fetched<T>)
    ensures r.Fetched? <==> upstream.Response? && IsOkStatus(upstream.status) && upstream.body.Some?
    ensures r.Fetched? ==> r.data == upstream.body.value
    ensures upstream.Unreachable? ==> r == FetchFailed(NetworkError)
    ensures upstream.Response? && !IsOkStatus(upstream.status) ==> r == FetchFailed(BadStatus(upstream.status))
  {
    match upstream
    case Unreachable => FetchFailed(NetworkError)
    case Response(status, body) =>
      if !IsOkStatus(status) then FetchFailed(BadStatus(status))
      else if body.None? then FetchFailed(MalformedBody)
      else Fetched(body.value)
  }

  /** The messages proxy's answer: the upstream JSON as it came, or 500 with
      "Failed to fetch messages" and the failure as details. */
  datatype ProxyResponse<T> = Forward(data: T) | Failed500(details: FetchFailure)

  /** GET /api/messages on the dashboard: ask the API (`api`) with the
      defaulted query and forward its body only when it is a 2xx JSON reply. */
  function MessagesProxy<T>(limit: Option<string>, environment: Option<string>, api: MessagesQuery -> Upstream<T>)
    : (r: ProxyResponse<T>)
    ensures var upstream := api(MessagesQueryFor(limit, environment));
            && (r.Forward? <==> upstream.Response? && IsOkStatus(upstream.status) && upstream.body.Some?)
            && (r.Forward? ==> r.data == upstream.body.value)
            && (upstream.Response? && !IsOkStatus(upstream.status) ==> r == Failed500(BadStatus(upstream.status)))
  {
    match ReadJson(api(MessagesQueryFor(limit, environment)))
    case Fetched(data) => Forward(data)
    case FetchFailed(reason) => Failed500(reason)
  }

  /** The `statistics` object of the API's reply, each field as its JSON text
      (None when missing or null). */
  datatype StatisticsJson = StatisticsJson(
    totalMessages: Option<string>,
    prodMessages: Option<string>,
    testMessages: Option<string>,
    lastMessage: Option<string>)

  /** The API's reply to GET /api/tenants, as far as the dashboard reads it. */
  datatype TenantsJson = TenantsJson(tenantId: Option<string>, statistics: Option<StatisticsJson>)

  /** What the dashboard receives from its own GET /api/tenants. */
  datatype TenantView = TenantView(
    tenantId: string,
    totalMessages: int,
    prodMessages: int,
    testMessages: int,
    lastMessage: Option<string>)

  /** `parseInt(value) || 0`: the parsed number, and 0 when the value is
      missing, does not parse (NaN) or parses to 0. */
  function CountOrZero(value: Option<string>): (n: int)
    ensures n != 0 ==> value.Some? && ParseInt(value.value) == Some(n)
    ensures value.Some? && ParseInt(value.value).Some? ==> n == ParseInt(value.value).value
  {
    match value
    case None => 0
    case Some(text) =>
      match ParseInt(text)
      case None => 0
      case Some(k) => k
  }

  /** The answer on any failure: the configured tenant and nothing counted. */
  function FallbackView(tenantName: string): (v: TenantView)
    ensures v.tenantId == tenantName
    ensures v.totalMessages == 0 && v.prodMessages == 0 && v.testMessages == 0
    ensures v.lastMessage.None?
  {
    TenantView(tenantName, 0, 0, 0, None)
  }

  /** GET /api/tenants on the dashboard. A failed fetch, a non-2xx status, a
      body that is not JSON and a reply without `statistics` all give the
      fallback; otherwise the counts are parsed and the falsy fields replaced. */
  function TenantsProxy(tenantName: string, upstream: Upstream<TenantsJson>): (v: TenantView)
    ensures ReadJson(upstream).FetchFailed? ==> v == FallbackView(tenantName)
    ensures ReadJson(upstream).Fetched? && ReadJson(upstream).data.statistics.None? ==>
              v == FallbackView(tenantName)
    ensures ReadJson(upstream).Fetched? && ReadJson(upstream).data.statistics.Some? ==>
              var data := ReadJson(upstream).data;
              var stats := data.statistics.value;
              && v.tenantId == OrElse(data.tenantId, tenantName)
              && v.totalMessages == CountOrZero(stats.totalMessages)
              && v.prodMessages == CountOrZero(stats.prodMessages)
              && v.testMessages == CountOrZero(stats.testMessages)
              && v.lastMessage == OrNull(stats.lastMessage)
    ensures tenantName != "" ==> v.tenantId != ""
    ensures v.lastMessage != Some("")
  {
    match ReadJson(upstream)
    case FetchFailed(_) => FallbackView(tenantName)
    case Fetched(data) =>
      match data.statistics
      case None => FallbackView(tenantName)
      case Some(stats) =>
        TenantView(
          OrElse(data.tenantId, tenantName),
          CountOrZero(stats.totalMessages),
          CountOrZero(stats.prodMessages),
          CountOrZero(stats.testMessages),
          OrNull(stats.lastMessage))
  }
}

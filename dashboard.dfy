/** The API's GET /api/tenants reply as the dashboard's proxy reads it, and
    what the dashboard ends up showing for it. */
module Dashboard {
  import opened Wrappers
  import opened Records
  import opened JsInt
  import TenantStore
  import opened ConsumerProxy

  /** The tenant every API request is attributed to (the test middleware). */
  const ApiTenantId := "test_tenant"

  /** The `statistics` object of a successful reply: the driver hands COUNT(*)
      over as decimal text, which `parseInt` reads back as the count, and
      MAX(created_at) as a date that JSON renders through `iso` (date
      formatting is not part of this model), or null when there are no rows. */
  function StatisticsBody(stats: Stats, iso: Timestamp -> string): (body: StatisticsJson)
    ensures body.totalMessages.Some? && ParseInt(body.totalMessages.value) == Some(stats.totalMessages)
    ensures body.prodMessages.Some? && ParseInt(body.prodMessages.value) == Some(stats.prodMessages)
    ensures body.testMessages.Some? && ParseInt(body.testMessages.value) == Some(stats.testMessages)
    ensures body.lastMessage.None? <==> stats.lastMessage.None?
    ensures stats.lastMessage.Some? ==> body.lastMessage == Some(iso(stats.lastMessage.value))
  {
    ParseDecimal(stats.totalMessages, []);
    ParseDecimal(stats.prodMessages, []);
    ParseDecimal(stats.testMessages, []);
    assert Decimal(stats.totalMessages) + [] == Decimal(stats.totalMessages);
    assert Decimal(stats.prodMessages) + [] == Decimal(stats.prodMessages);
    assert Decimal(stats.testMessages) + [] == Decimal(stats.testMessages);
    StatisticsJson(
      Some(Decimal(stats.totalMessages)),
      Some(Decimal(stats.prodMessages)),
      Some(Decimal(stats.testMessages)),
      match stats.lastMessage
      case None => None
      case Some(t) => Some(iso(t)))
  }

  /** The API's reply: 200 with the tenant and its statistics, or 500 with an
      error body that has neither. The dashboard reads a body exactly when
      the aggregate succeeded. */
  function TenantsReply(tenantId: string, result: TenantStore.Result<Stats>, iso: Timestamp -> string)
    : (reply: Upstream<TenantsJson>)
    ensures reply.Response? && (reply.status == 200 <==> result.Ok?)
    ensures ReadJson(reply).Fetched? <==> result.Ok?
    ensures result.Ok? ==> reply.body == Some(TenantsJson(Some(tenantId), Some(StatisticsBody(result.value, iso))))
    ensures result.InternalError? ==> reply.status == 500 && reply.body == Some(TenantsJson(None, None))
  {
    match result
    case Ok(stats) => Response(200, Some(TenantsJson(Some(tenantId), Some(StatisticsBody(stats, iso)))))
    case InternalError => Response(500, Some(TenantsJson(None, None)))
  }

  /** The dashboard shows exactly the API's counts, tenant and latest message
      when the API answers, and the zero fallback when it fails (as it does
      for a tenant that never posted). */
  lemma DashboardMirrorsApi(tenantName: string, result: TenantStore.Result<Stats>, iso: Timestamp -> string)
    requires forall t :: iso(t) != ""
    ensures result.InternalError? ==> TenantsProxy(tenantName, TenantsReply(ApiTenantId, result, iso)) == FallbackView(tenantName)
    ensures result.Ok? ==>
              TenantsProxy(tenantName, TenantsReply(ApiTenantId, result, iso)) ==
              TenantView(
                ApiTenantId,
                result.value.totalMessages,
                result.value.prodMessages,
                result.value.testMessages,
                match result.value.lastMessage
                case None => None
                case Some(t) => Some(iso(t)))
  {
  }
}

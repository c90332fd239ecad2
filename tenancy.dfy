/**
 * The tenant registry (`TENANTS_CONFIG`, read once from `tenants.json`) and
 * the gate `identify_tenant` that runs before every document route.
 */
module Tenancy {
  import opened Wrappers
  import opened Http

  /** The connection settings of one tenant's database (`db_host`, `db_user`, `db_pass`, `db_name`). */
  datatype TenantConfig = TenantConfig(dbHost: string, dbUser: string, dbPass: string, dbName: string)

  /** Tenant id to configuration; never changed while the process runs. */
  type Registry = map<string, TenantConfig>

  datatype Tenant = Tenant(id: string, config: TenantConfig)

  /**
   * The tenant a request acts for: there is one exactly when the
   * `X-Tenant-ID` header is present, non-empty and a key of the registry,
   * and then it is that key with its configuration.
   */
  function ResolveTenant(registry: Registry, header: Option<string>): (t: Option<Tenant>)
    ensures t.Some? <==> header.Some? && header.value != "" && header.value in registry
    ensures t.Some? ==> t.value.id == header.value && t.value.config == registry[header.value]
  {
    if header.None? || header.value == "" || header.value !in registry then None
    else Some(Tenant(header.value, registry[header.value]))
  }

  /** Flask's per-request `g`: what the gate stores for the handlers. */
  class RequestGlobals {
    var tenantId: Option<string>
    var tenantConfig: Option<TenantConfig>

    constructor ()
      ensures tenantId == None && tenantConfig == None
    {
      tenantId := None;
      tenantConfig := None;
    }

    /** The tenant the gate stored, once it has admitted the request. */
    function Current(): (t: Option<Tenant>)
      reads this
      ensures t.Some? <==> tenantId.Some? && tenantConfig.Some?
    {
      if tenantId.Some? && tenantConfig.Some? then Some(Tenant(tenantId.value, tenantConfig.value)) else None
    }

    /**
     * `identify_tenant`: refuses with 403 (and stores nothing) unless the
     * header names a registered tenant; otherwise stores the id and its
     * configuration and lets the route run.
     */
    method IdentifyTenant(registry: Registry, header: Option<string>) returns (rejection: Option<Response>)
      modifies this
      ensures rejection.None? <==> ResolveTenant(registry, header).Some?
      ensures rejection.Some? ==> rejection == Some(Forbidden) && tenantId == old(tenantId) && tenantConfig == old(tenantConfig)
      ensures rejection.None? ==> Current() == ResolveTenant(registry, header)
    {
      if header.None? || header.value == "" || header.value !in registry {
        return Some(Forbidden);
      }
      tenantId := Some(header.value);
      tenantConfig := Some(registry[header.value]);
      return None;
    }
  }
}

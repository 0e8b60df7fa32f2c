/**
 The row-level security of the tables: transaction-local settings name the tenant of a request, and the policies of
 every table read them. A setting that was made goes back to the empty string when its transaction ends.
 */
module RowLevelSecurity {
  import opened Wrappers

  type Tenant = Uuid

  // ---------- Settings ----------

  /** `current_setting(name, true)`: NULL before the setting was ever made, the empty string after its transaction. */
  datatype Setting<T> = Absent | Blank | Set(value: T)

  datatype Settings = Settings(tenant: Setting<Tenant>, admin: Setting<bool>)

  datatype TenantContext = TenantContext(tenant: Tenant, isPlatformAdmin: bool)

  const NEW_CONNECTION := Settings(Absent, Absent)

  function Scoped(s: Settings, ctx: TenantContext): Settings {
    Settings(Set(ctx.tenant), if ctx.isPlatformAdmin then Set(true) else s.admin)
  }

  /** Commit and rollback alike end the transaction-local settings. */
  function Ended(s: Settings): Settings {
    Settings(if s.tenant.Set? then Blank else s.tenant, if s.admin.Set? then Blank else s.admin)
  }

  // ---------- Policies ----------

  /** SQL truth values. A policy admits a row only when it is true. */
  datatype Truth = True | False | Unknown

  function Or(a: Truth, b: Truth): Truth {
    if a.True? || b.True? then True else if a.False? && b.False? then False else Unknown
  }

  /** `a = b`, where NULL compares as unknown. */
  function Equals<T(==)>(a: Option<T>, b: Option<T>): Truth {
    if a.None? || b.None? then Unknown else if a == b then True else False
  }

  /** `NULLIF(setting, '')::type` */
  function CastOrNull<T>(s: Setting<T>): Result<Option<T>> {
    if s.Set? then Ok(Some(s.value)) else Ok(None)
  }

  /** `setting::type`, as the policies were written before: the empty string cannot be cast. */
  function Cast<T>(s: Setting<T>): Result<Option<T>> {
    match s
    case Absent => Ok(None)
    case Blank => Err(Constraint)
    case Set(v) => Ok(Some(v))
  }

  datatype Table =
    | Users | Cases | Tasks | Observables | Assets | Evidence | TimelineEntries | NoteFolders | Notes | Alerts
    | EnrichmentSources | EnrichmentResults | AttackMappings | AuditLogs | ModuleExecutions | Reports
    | CaseTemplates | ReportTemplates

  /** Tables whose `tenant_id` may be NULL, for entries that all tenants share. */
  predicate NullableTenant(t: Table) {
    t.CaseTemplates? || t.ReportTemplates?
  }

  /** The `tenant_isolation` policy over the value of the tenant setting. */
  function TenantPolicy(t: Table, rowTenant: Option<Tenant>, current: Option<Tenant>): Truth {
    var own := Equals(rowTenant, current);
    if NullableTenant(t) then Or(if rowTenant.None? then True else False, own) else own
  }

  /** `... IS TRUE` is never unknown. */
  function AdminPolicy(admin: Option<bool>): Truth {
    if admin == Some(true) then True else False
  }

  /** Permissive policies are combined with OR; evaluation raises when a cast does. */
  function Admits(t: Table, rowTenant: Option<Tenant>, tenant: Result<Option<Tenant>>, admin: Result<Option<bool>>)
    : Result<bool>
  {
    if tenant.Err? then Err(tenant.error)
    else if admin.Err? then Err(admin.error)
    else Ok(Or(TenantPolicy(t, rowTenant, tenant.value), AdminPolicy(admin.value)).True?)
  }

  function Policy(s: Settings, t: Table, rowTenant: Option<Tenant>): Result<bool> {
    Admits(t, rowTenant, CastOrNull(s.tenant), CastOrNull(s.admin))
  }

  /** The policies of the earlier migration. */
  function OldPolicy(s: Settings, t: Table, rowTenant: Option<Tenant>): Result<bool> {
    Admits(t, rowTenant, Cast(s.tenant), Cast(s.admin))
  }

  /** Evaluation, of every operand, never raises now; before, it raised exactly on a setting left over from an earlier
      transaction, and otherwise the two versions agree. */
  lemma PolicyNeverRaises(s: Settings, t: Table, rowTenant: Option<Tenant>)
    ensures Policy(s, t, rowTenant).Ok?
    ensures OldPolicy(s, t, rowTenant).Err? <==> s.tenant.Blank? || s.admin.Blank?
    ensures OldPolicy(s, t, rowTenant).Ok? ==> OldPolicy(s, t, rowTenant) == Policy(s, t, rowTenant)
  {}

  predicate Visible(s: Settings, t: Table, rowTenant: Option<Tenant>) {
    Policy(s, t, rowTenant) == Ok(true)
  }

  /** What a transaction of `who` may see: rows of its own tenant, and shared rows in the two nullable tables. Without
      a tenant only the shared rows remain. */
  predicate Shows(who: Option<Tenant>, table: Table, rowTenant: Option<Tenant>) {
    (who.Some? && rowTenant == who) || (rowTenant.None? && NullableTenant(table))
  }

  /** The settings of a transaction that belongs to `who` and not to an administrator. */
  predicate ScopedTo(s: Settings, who: Option<Tenant>) {
    !s.admin.Set? && (if who.Some? then s.tenant == Set(who.value) else !s.tenant.Set?)
  }

  lemma ScopedSees(s: Settings, who: Option<Tenant>, table: Table, rowTenant: Option<Tenant>)
    ensures ScopedTo(s, who) ==> (Visible(s, table, rowTenant) <==> Shows(who, table, rowTenant))
  {}
}

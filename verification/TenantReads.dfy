/** Tenant-safe reads: who may read what (api/deps_audit.py), the route's scope rule
    (api/routes_audit_safe.py) and the scoped query (services/audit_query_service.py). */
module TenantReads {
  import opened Wrappers
  import opened Queries
  import opened Timestamps

  const PLATFORM_WIDE_PERMISSION := "manage_all_orgs"
  const ORGANIZATION_READ_ROLE := "org_admin"

  /** A verified claim that should be a list of names; a bare text answers `in` by substring. */
  datatype NameClaim = NoNames | Names(names: seq<string>) | BareText(text: string)

  datatype OrgClaim = NoOrg | Composite | Scalar(text: string)

  datatype Claims = Claims(permissions: NameClaim, orgRole: NameClaim, orgId: OrgClaim)

  predicate Contains(text: string, part: string) {
    part <= text || (text != "" && Contains(text[1..], part))
  }

  predicate Has(claim: NameClaim, name: string) {
    match claim
    case NoNames => false
    case Names(names) => name in names
    case BareText(text) => Contains(text, name)
  }

  datatype Access = Denied | PlatformWide | Organization(id: string)

  /** `require_audit_read_access` once the token is verified. */
  function AccessOf(claims: Claims): (a: Access)
    ensures a.PlatformWide? <==> Has(claims.permissions, PLATFORM_WIDE_PERMISSION)
    ensures a.Organization? <==>
      !a.PlatformWide? && Has(claims.orgRole, ORGANIZATION_READ_ROLE) && claims.orgId.Scalar? && claims.orgId.text != ""
    ensures a.Organization? ==> claims.orgId == Scalar(a.id)
  {
    if Has(claims.permissions, PLATFORM_WIDE_PERMISSION) then PlatformWide
    else if !Has(claims.orgRole, ORGANIZATION_READ_ROLE) then Denied
    else if claims.orgId.Scalar? && claims.orgId.text != "" then Organization(claims.orgId.text)
    else Denied
  }

  /** Containment, position by position. */
  lemma {:induction false} ContainsIff(text: string, part: string)
    ensures Contains(text, part) <==> exists i :: 0 <= i <= |text| && part <= text[i..]
  {
    assert text[0..] == text;
    if text != "" {
      ContainsIff(text[1..], part);
      if exists i :: 0 <= i <= |text[1..]| && part <= text[1..][i..] {
        var i :| 0 <= i <= |text[1..]| && part <= text[1..][i..];
        assert text[1..][i..] == text[i + 1..];
      }
      if exists i :: 0 < i <= |text| && part <= text[i..] {
        var i :| 0 < i <= |text| && part <= text[i..];
        assert text[1..][i - 1..] == text[i..];
      }
    }
  }

  /** A list of names grants a name it holds, a bare text one it contains, and a missing claim none. */
  ghost predicate Grants(claim: NameClaim, name: string) {
    (claim.Names? && exists i :: 0 <= i < |claim.names| && claim.names[i] == name)
    || (claim.BareText? && exists i :: 0 <= i <= |claim.text| && name <= claim.text[i..])
  }

  /** The scope decision, from the claims as they are. */
  lemma AccessFromClaims(claims: Claims)
    ensures AccessOf(claims).PlatformWide? <==> Grants(claims.permissions, "manage_all_orgs")
    ensures forall id :: AccessOf(claims) == Organization(id) <==>
      !Grants(claims.permissions, "manage_all_orgs") && Grants(claims.orgRole, "org_admin") && claims.orgId == Scalar(id) && id != ""
    ensures claims.permissions.NoNames? && claims.orgRole.NoNames? ==> AccessOf(claims).Denied?
  {
    if claims.permissions.BareText? { ContainsIff(claims.permissions.text, "manage_all_orgs"); }
    if claims.orgRole.BareText? { ContainsIff(claims.orgRole.text, "org_admin"); }
  }

  datatype Response = Refused(status: nat) | Listed(rows: seq<Row>, total: nat, totalPages: nat)

  /** The rows a caller's scope covers. */
  predicate InScope(a: Access, r: Row) {
    match a
    case Denied => false
    case PlatformWide => true
    case Organization(id) => r.organizationId == Some(id) && r.tenantScope == "organization"
  }

  /** What the route shows: the caller's scope and every filter, the organization filter included. */
  predicate Shown(a: Access, f: Filters, r: Row) { InScope(a, r) && Wanted(f, r) }

  /** `list_safe_audit_events` of the query service. */
  method ListSafe(table: seq<Row>, page: nat, pageSize: nat, platformWide: bool, organizationId: Option<string>, f: Filters)
    returns (rows: seq<Row>, total: nat)
    requires DistinctIds(table) && page >= 1 && pageSize >= 1
    ensures IsPage(table, r => SafeMatch(platformWide, organizationId, f, r), page, pageSize, rows, total)
  {
    var query: seq<Condition> := [];
    if !platformWide {
      query := Filter(query, Equals(OrganizationId, organizationId));
      query := Filter(query, Equals(TenantScope, Some("organization")));
    } else if organizationId.Some? {
      query := Filter(query, Equals(OrganizationId, organizationId));
    }
    var columns := [(UserId, f.userId), (Service, f.service), (EventType, f.eventType), (Decision, f.decision),
                    (IntegrityStatus, f.integrityStatus)];
    ghost var scoped := query;
    for i := 0 to |columns|
      invariant forall r :: MeetsAll(r, query) <==>
        MeetsAll(r, scoped) && forall k :: 0 <= k < i ==> Admits(columns[k].1, Cell(r, columns[k].0))
    {
      query := FilterGiven(query, columns[i].0, columns[i].1);
    }
    ColumnsAreFilters(f, columns);
    query := FilterRange(query, f.from, f.to);
    rows, total := RunQuery(table, query, page, pageSize);
    SamePage(table, r => MeetsAll(r, query), r => SafeMatch(platformWide, organizationId, f, r), page, pageSize, rows, total);
  }

  /** The service's filters, organization and scope as its two arguments have them. */
  predicate SafeMatch(platformWide: bool, organizationId: Option<string>, f: Filters, r: Row) {
    && (!platformWide ==> r.organizationId == organizationId && r.tenantScope == "organization")
    && Wanted(f.(organizationId := organizationId), r)
  }

  lemma ColumnsAreFilters(f: Filters, columns: seq<(Column, Option<string>)>)
    requires columns == [(UserId, f.userId), (Service, f.service), (EventType, f.eventType), (Decision, f.decision),
                         (IntegrityStatus, f.integrityStatus)]
    ensures forall r :: (forall k :: 0 <= k < |columns| ==> Admits(columns[k].1, Cell(r, columns[k].0))) <==>
      && Admits(f.userId, r.userId) && Admits(f.service, Some(r.service)) && Admits(f.eventType, Some(r.eventType))
      && Admits(f.decision, r.decision) && Admits(f.integrityStatus, Some(r.integrityStatus))
  {
    forall r: Row
      ensures (forall k :: 0 <= k < |columns| ==> Admits(columns[k].1, Cell(r, columns[k].0))) <==>
        && Admits(f.userId, r.userId) && Admits(f.service, Some(r.service)) && Admits(f.eventType, Some(r.eventType))
        && Admits(f.decision, r.decision) && Admits(f.integrityStatus, Some(r.integrityStatus))
    {
      if forall k :: 0 <= k < |columns| ==> Admits(columns[k].1, Cell(r, columns[k].0)) {
        assert Admits(columns[0].1, Cell(r, columns[0].0)) && Admits(columns[1].1, Cell(r, columns[1].0));
        assert Admits(columns[2].1, Cell(r, columns[2].0)) && Admits(columns[3].1, Cell(r, columns[3].0));
        assert Admits(columns[4].1, Cell(r, columns[4].0));
      }
    }
  }

  /** Python's `a > b` on datetimes; None when it raises, for one with an offset and one without. */
  function Later(a: Datetime, b: Datetime): Option<bool> {
    if a.offset.None? != b.offset.None? then None else Some(InstantOf(a) > InstantOf(b))
  }

  /** The bounds of the range cannot be compared: one has an offset and the other has none. */
  predicate Incomparable(f: Filters) { f.from.Some? && f.to.Some? && (f.from.value.offset.Some? <==> f.to.value.offset.None?) }

  /** The lower bound is a later instant than the upper one. */
  predicate Reversed(f: Filters) {
    f.from.Some? && f.to.Some? && !Incomparable(f) && InstantOf(f.to.value) < InstantOf(f.from.value)
  }

  /** An organization caller asks for another organization. */
  predicate OutsideScope(a: Access, f: Filters) { a.Organization? && f.organizationId.Some? && f.organizationId.value != a.id }

  /** The route: refusals first, then the page of exactly what the caller is shown. */
  method SafeRoute(claims: Claims, table: seq<Row>, page: nat, pageSize: nat, f: Filters) returns (response: Response)
    requires DistinctIds(table) && page >= 1 && pageSize >= 1
    ensures response == Refused(500) <==> !AccessOf(claims).Denied? && Incomparable(f)
    ensures response == Refused(422) <==> !AccessOf(claims).Denied? && Reversed(f)
    ensures response == Refused(403) <==>
      AccessOf(claims).Denied? || (!Incomparable(f) && !Reversed(f) && OutsideScope(AccessOf(claims), f))
    ensures response.Refused? ==> response.status in {403, 422, 500}
    ensures response.Listed? ==>
      && IsPage(table, r => Shown(AccessOf(claims), f, r), page, pageSize, response.rows, response.total)
      && LeastPages(response.total, pageSize, response.totalPages)
  {
    var access := AccessOf(claims);
    if access.Denied? {
      return Refused(403);
    }
    if f.from.Some? && f.to.Some? {
      var later := Later(f.from.value, f.to.value);
      if later.None? {
        return Refused(500);
      }
      if later.value {
        return Refused(422);
      }
    }
    if access.Organization? && f.organizationId.Some? && f.organizationId.value != access.id {
      return Refused(403);
    }
    var effectiveOrg := if access.PlatformWide? then f.organizationId else Some(access.id);
    var rows, total := ListSafe(table, page, pageSize, access.PlatformWide?, effectiveOrg, f);
    SamePage(table, r => SafeMatch(access.PlatformWide?, effectiveOrg, f, r), r => Shown(access, f, r), page, pageSize, rows, total);
    LastPageReaches(total, pageSize);
    response := Listed(rows, total, TotalPages(total, pageSize));
  }

  // ----- isolation -----

  /** Two tables that agree on an organization's own rows show its callers the same listing: nothing else in
      the table can influence the rows, the total or the pages. */
  lemma OtherRowsInvisible(id: string, f: Filters, t: seq<Row>, t': seq<Row>, a: seq<Row>, b: seq<Row>)
    requires forall r :: InScope(Organization(id), r) ==> (r in t <==> r in t')
    requires IsListing(t, r => Shown(Organization(id), f, r), a) && IsListing(t', r => Shown(Organization(id), f, r), b)
    ensures a == b
  {
    forall r ensures r in a <==> r in b {
      assert r in a <==> r in t && Shown(Organization(id), f, r);
      assert r in b <==> r in t' && Shown(Organization(id), f, r);
    }
    StrictOrderUnique(a, b);
  }

  /** For an organization caller the organization parameter is redundant where it is not refused. */
  lemma OrganizationParameterRedundant(id: string, f: Filters, r: Row)
    requires f.organizationId == Some(id)
    ensures Shown(Organization(id), f, r) <==> Shown(Organization(id), f.(organizationId := None), r)
  {
  }

  /** Under any further filters, an organization's view is the platform-wide view filtered to it, if and only if of
      the rows that meet the filters all with its id have organization scope: one row that breaks this tells the
      two views apart. */
  lemma OrganizationViewIsFilteredPlatformView(id: string, f: Filters, t: seq<Row>, own: seq<Row>, platform: seq<Row>)
    requires IsListing(t, r => Shown(Organization(id), f.(organizationId := None), r), own)
    requires IsListing(t, r => Shown(PlatformWide, f.(organizationId := Some(id)), r), platform)
    ensures own == platform <==>
      forall r :: r in t && r.organizationId == Some(id) && Wanted(f.(organizationId := None), r) ==> r.tenantScope == "organization"
  {
    forall r ensures r in own <==> r in t && InScope(Organization(id), r) && Wanted(f.(organizationId := None), r) {
      assert r in own <==> r in t && Shown(Organization(id), f.(organizationId := None), r);
    }
    forall r ensures r in platform <==> r in t && r.organizationId == Some(id) && Wanted(f.(organizationId := None), r) {
      assert r in platform <==> r in t && Shown(PlatformWide, f.(organizationId := Some(id)), r);
    }
    if forall r :: r in t && r.organizationId == Some(id) && Wanted(f.(organizationId := None), r) ==> r.tenantScope == "organization" {
      forall r ensures r in own <==> r in platform {}
      StrictOrderUnique(own, platform);
    }
  }

  /** So they agree under any filters, on tables whose rows are all tenant-consistent. */
  lemma ConsistentViewsAgree(id: string, f: Filters, t: seq<Row>, own: seq<Row>, platform: seq<Row>)
    requires forall r :: r in t ==> (r.tenantScope == "organization" <==> r.organizationId.Some?)
    requires IsListing(t, r => Shown(Organization(id), f.(organizationId := None), r), own)
    requires IsListing(t, r => Shown(PlatformWide, f.(organizationId := Some(id)), r), platform)
    ensures own == platform
  {
    forall r ensures r in own <==> r in platform {
      assert r in own <==> r in t && Shown(Organization(id), f.(organizationId := None), r);
      assert r in platform <==> r in t && Shown(PlatformWide, f.(organizationId := Some(id)), r);
    }
    StrictOrderUnique(own, platform);
  }
}

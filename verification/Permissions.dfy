/** Grants, what they allow, and what may be handed out (packages/shared/src/permissions.ts). */
module Permissions {
  import opened Prelude

  datatype ScopeType = Global | Tenant | Site | Cluster

  datatype Grant = Grant(permission: string, scopeType: ScopeType, scopeId: Option<string>)

  /** What a request is about; a part it does not concern is absent. */
  datatype Target = Target(tenantId: Option<string>, siteId: Option<string>, clusterId: Option<string>)

  const NOWHERE := Target(None, None, None)

  /**
   * The permissions there are, in order; `never` are in no custom role, `customer` may be in one for customers.
   * A permission is about a resource, which it reads or changes.
   */
  datatype Catalogue = Catalogue(
    all: seq<string>, never: seq<string>, customer: seq<string>, resource: string -> string, isRead: string -> bool)

  /** A resource with its read permission and the ones that change something. */
  datatype Area = Area(read: Option<string>, changes: seq<string>)

  // ---------------------------------------------------------------------------
  // What grants allow
  // ---------------------------------------------------------------------------

  /** An id, when there is one and it is not empty, that is the one asked for. */
  predicate Names(scopeId: Option<string>, id: Option<string>) {
    scopeId.Some? && scopeId.value != "" && scopeId == id
  }

  predicate Covers(g: Grant, permission: string, target: Target) {
    g.permission == permission &&
    match g.scopeType
    case Global => true
    case Tenant => Names(g.scopeId, target.tenantId)
    case Site => Names(g.scopeId, target.siteId)
    case Cluster => Names(g.scopeId, target.clusterId)
  }

  predicate IsAllowed(grants: seq<Grant>, permission: string, target: Target) {
    exists g :: g in grants && Covers(g, permission, target)
  }

  /** Asked about nothing in particular, only an installation-wide grant will do. */
  lemma AllowedNowhereIsGlobal(grants: seq<Grant>, permission: string)
    ensures IsAllowed(grants, permission, NOWHERE)
       <==> exists g :: g in grants && g.permission == permission && g.scopeType == Global
  {
  }

  // ---------------------------------------------------------------------------
  // Main tenants and their sub-tenants
  // ---------------------------------------------------------------------------

  function Subs(subTenantsOf: map<string, seq<string>>, tenant: string): seq<string> {
    if tenant in subTenantsOf then subTenantsOf[tenant] else []
  }

  predicate Flows(g: Grant) {
    g.scopeType == Tenant && g.scopeId.Some? && g.scopeId.value != ""
  }

  function Repeated(permission: string, subs: seq<string>): (r: seq<Grant>)
    ensures forall g :: g in r <==> exists sub :: sub in subs && g == Grant(permission, Tenant, Some(sub))
  {
    if subs == [] then []
    else
      var rest, last := Repeated(permission, subs[..|subs| - 1]), Grant(permission, Tenant, Some(subs[|subs| - 1]));
      assert subs == subs[..|subs| - 1] + [subs[|subs| - 1]];
      rest + [last]
  }

  /** What the grants add for sub-tenants. */
  function Passed(grants: seq<Grant>, subTenantsOf: map<string, seq<string>>): seq<Grant> {
    if grants == [] then []
    else
      var g := grants[|grants| - 1];
      Passed(grants[..|grants| - 1], subTenantsOf)
      + (if Flows(g) then Repeated(g.permission, Subs(subTenantsOf, g.scopeId.value)) else [])
  }

  lemma RepeatedOn(permission: string, subs: seq<string>, k: nat)
    requires k < |subs|
    ensures Repeated(permission, subs[..k + 1])
      == Repeated(permission, subs[..k]) + [Grant(permission, Tenant, Some(subs[k]))]
  {
    assert subs[..k + 1][..k] == subs[..k];
  }

  lemma PassedOn(grants: seq<Grant>, subTenantsOf: map<string, seq<string>>, k: nat)
    requires k < |grants|
    ensures var g := grants[k];
            Passed(grants[..k + 1], subTenantsOf) == Passed(grants[..k], subTenantsOf)
            + (if Flows(g) then Repeated(g.permission, Subs(subTenantsOf, g.scopeId.value)) else [])
  {
    assert grants[..k + 1][..k] == grants[..k];
  }

  /** The grants, with each one on a main tenant repeated for each of its sub-tenants. */
  method WithSubTenantGrants(grants: seq<Grant>, subTenantsOf: map<string, seq<string>>) returns (out: seq<Grant>)
    ensures out == grants + Passed(grants, subTenantsOf)
  {
    out := grants;
    for k := 0 to |grants|
      invariant out == grants + Passed(grants[..k], subTenantsOf)
    {
      PassedOn(grants, subTenantsOf, k);
      var g := grants[k];
      if !Flows(g) {
        continue;
      }
      var subs := Subs(subTenantsOf, g.scopeId.value);
      ghost var before := out;
      for s := 0 to |subs|
        invariant out == before + Repeated(g.permission, subs[..s])
      {
        RepeatedOn(g.permission, subs, s);
        out := out + [Grant(g.permission, Tenant, Some(subs[s]))];
      }
      assert subs[..|subs|] == subs;
    }
    assert grants[..|grants|] == grants;
  }

  /** A passed grant comes from one on the main tenant, and nothing else flows. */
  lemma {:induction false} PassedFrom(grants: seq<Grant>, subTenantsOf: map<string, seq<string>>, g: Grant)
    ensures g in Passed(grants, subTenantsOf) <==>
      exists main, sub :: main in grants && Flows(main) && sub in Subs(subTenantsOf, main.scopeId.value)
                          && g == Grant(main.permission, Tenant, Some(sub))
  {
    if grants != [] {
      var init, last := grants[..|grants| - 1], grants[|grants| - 1];
      PassedFrom(init, subTenantsOf, g);
      assert forall m :: m in grants <==> m in init || m == last;
    }
  }

  // ---------------------------------------------------------------------------
  // What a custom role may hold
  // ---------------------------------------------------------------------------

  datatype Problem =
    | Unknown(permission: string)
    | Never(permission: string)
    | NotHeld(permission: string)
    | NotForCustomers(permission: string)

  function ProblemWith(c: Catalogue, permission: string, mspOnly: bool, maker: seq<Grant>): Option<Problem> {
    if permission !in c.all then Some(Unknown(permission))
    else if permission in c.never then Some(Never(permission))
    else if !IsAllowed(maker, permission, NOWHERE) then Some(NotHeld(permission))
    else if !mspOnly && permission !in c.customer then Some(NotForCustomers(permission))
    else None
  }

  function Problems(c: Catalogue, permissions: seq<string>, mspOnly: bool, maker: seq<Grant>): (r: seq<Problem>)
    ensures r == [] <==> forall p :: p in permissions ==> ProblemWith(c, p, mspOnly, maker) == None
  {
    if permissions == [] then []
    else
      var rest, last := Problems(c, permissions[..|permissions| - 1], mspOnly, maker), permissions[|permissions| - 1];
      assert permissions == permissions[..|permissions| - 1] + [last];
      var problem := ProblemWith(c, last, mspOnly, maker);
      if problem.Some? then rest + [problem.value] else rest
  }

  method CustomRoleProblems(c: Catalogue, permissions: seq<string>, mspOnly: bool, maker: seq<Grant>)
    returns (problems: seq<Problem>)
    ensures problems == Problems(c, permissions, mspOnly, maker)
  {
    problems := [];
    for k := 0 to |permissions|
      invariant problems == Problems(c, permissions[..k], mspOnly, maker)
    {
      assert permissions[..k + 1][..k] == permissions[..k];
      var permission := permissions[k];
      if permission !in c.all {
        problems := problems + [Unknown(permission)];
      } else if permission in c.never {
        problems := problems + [Never(permission)];
      } else if !IsAllowed(maker, permission, NOWHERE) {
        problems := problems + [NotHeld(permission)];
      } else if !mspOnly && permission !in c.customer {
        problems := problems + [NotForCustomers(permission)];
      }
    }
    assert permissions[..|permissions|] == permissions;
  }

  /** The permissions of a role that the grantor lacks at the scope it is granted at. */
  function BeyondGrantor(permissions: seq<string>, grantor: seq<Grant>, target: Target): (r: seq<string>)
    ensures forall p :: p in r <==> p in permissions && !IsAllowed(grantor, p, target)
  {
    if permissions == [] then []
    else (if IsAllowed(grantor, permissions[0], target) then [] else [permissions[0]])
         + BeyondGrantor(permissions[1..], grantor, target)
  }

  // ---------------------------------------------------------------------------
  // Changing includes seeing
  // ---------------------------------------------------------------------------

  /** The last permission that reads the resource. */
  function ReadOf(c: Catalogue, permissions: seq<string>, key: string): (r: Option<string>)
    ensures r.Some? ==> c.isRead(r.value)
  {
    if permissions == [] then None
    else
      var last := permissions[|permissions| - 1];
      if last !in c.never && c.isRead(last) && c.resource(last) == key then Some(last)
      else ReadOf(c, permissions[..|permissions| - 1], key)
  }

  /** The permissions that change the resource. */
  function ChangesOf(c: Catalogue, permissions: seq<string>, key: string): (r: seq<string>)
    ensures forall p :: p in r <==> p in permissions && p !in c.never && !c.isRead(p) && c.resource(p) == key
  {
    if permissions == [] then []
    else
      var init, last := permissions[..|permissions| - 1], permissions[|permissions| - 1];
      assert permissions == init + [last];
      if last !in c.never && !c.isRead(last) && c.resource(last) == key then ChangesOf(c, init, key) + [last]
      else ChangesOf(c, init, key)
  }

  /** The areas are those of the permissions so far, with what reads and what changes each. */
  ghost predicate AreasOf(c: Catalogue, permissions: seq<string>, areas: OrderedMap<Area>) {
    && areas.Valid()
    && (forall key ::
        key in areas.vals ==> areas.vals[key] == Area(ReadOf(c, permissions, key), ChangesOf(c, permissions, key)))
    && (forall p :: p in permissions && p !in c.never ==> c.resource(p) in areas.vals)
    && (forall key :: key in areas.vals ==> exists p :: p in permissions && p !in c.never && c.resource(p) == key)
  }

  lemma AreaOn(c: Catalogue, permissions: seq<string>, key: string, p: string)
    ensures ReadOf(c, permissions + [p], key)
         == if p !in c.never && c.isRead(p) && c.resource(p) == key then Some(p) else ReadOf(c, permissions, key)
    ensures ChangesOf(c, permissions + [p], key)
         == if p !in c.never && !c.isRead(p) && c.resource(p) == key
            then ChangesOf(c, permissions, key) + [p] else ChangesOf(c, permissions, key)
  {
    assert (permissions + [p])[..|permissions|] == permissions;
  }

  function WithPermission(c: Catalogue, areas: OrderedMap<Area>, p: string): OrderedMap<Area> {
    if p in c.never then areas
    else
      var area := areas.GetOr(c.resource(p), Area(None, []));
      areas.Set(c.resource(p), if c.isRead(p) then area.(read := Some(p)) else area.(changes := area.changes + [p]))
  }

  lemma AreasOn(c: Catalogue, permissions: seq<string>, areas: OrderedMap<Area>, p: string)
    requires AreasOf(c, permissions, areas)
    ensures AreasOf(c, permissions + [p], WithPermission(c, areas, p))
  {
    var after, more := WithPermission(c, areas, p), permissions + [p];
    assert forall q :: q in more <==> q in permissions || q == p;
    if c.resource(p) !in areas.vals {
      NothingOf(c, permissions, c.resource(p));
    }
    forall key | key in after.vals ensures after.vals[key] == Area(ReadOf(c, more, key), ChangesOf(c, more, key)) {
      AreaOn(c, permissions, key, p);
    }
    forall key | key in after.vals ensures exists q :: q in more && q !in c.never && c.resource(q) == key {
      if key !in areas.vals {
        assert p in more;
      } else {
        var q :| q in permissions && q !in c.never && c.resource(q) == key;
        assert q in more;
      }
    }
  }

  lemma {:induction false} NothingOf(c: Catalogue, permissions: seq<string>, key: string)
    requires forall p :: p in permissions && p !in c.never ==> c.resource(p) != key
    ensures ReadOf(c, permissions, key) == None && ChangesOf(c, permissions, key) == []
  {
    if permissions != [] {
      var init, last := permissions[..|permissions| - 1], permissions[|permissions| - 1];
      assert permissions == init + [last];
      NothingOf(c, init, key);
    }
  }

  lemma PrefixGrows(s: seq<string>, k: nat)
    requires k < |s|
    ensures s[..k + 1] == s[..k] + [s[k]]
  {
  }

  /** The catalogue as areas, in the order in which they come up. */
  method PermissionAreas(c: Catalogue) returns (areas: OrderedMap<Area>)
    ensures AreasOf(c, c.all, areas)
  {
    areas := OrderedMap([], map[]);
    for k := 0 to |c.all|
      invariant AreasOf(c, c.all[..k], areas)
    {
      var permission := c.all[k];
      AreasOn(c, c.all[..k], areas, permission);
      PrefixGrows(c.all, k);
      ghost var after := WithPermission(c, areas, permission);
      if permission !in c.never {
        var key := c.resource(permission);
        var area := areas.GetOr(key, Area(None, []));
        areas := areas.Set(key, if c.isRead(permission)
                                then area.(read := Some(permission))
                                else area.(changes := area.changes + [permission]));
      }
      assert areas == after;
    }
    assert c.all[..|c.all|] == c.all;
  }

  /** The permission reads a resource that one of these changes. */
  predicate ReadsChanged(c: Catalogue, permissions: seq<string>, p: string) {
    exists q ::
      q in permissions && q in c.all && q !in c.never && !c.isRead(q) && ReadOf(c, c.all, c.resource(q)) == Some(p)
  }

  function InCatalogue(all: seq<string>, wanted: set<string>): (r: seq<string>)
    ensures forall p :: p in r <==> p in all && p in wanted
  {
    if all == [] then [] else (if all[0] in wanted then [all[0]] else []) + InCatalogue(all[1..], wanted)
  }

  predicate SomeIn(changes: seq<string>, wanted: set<string>) {
    exists q :: q in changes && q in wanted
  }

  /** Adds the reads area by area to the permissions wanted, and returns them in the catalogue's order. */
  method WithReadsFor(c: Catalogue, permissions: seq<string>) returns (r: seq<string>)
    ensures forall p :: p in r <==> p in c.all && (p in permissions || ReadsChanged(c, permissions, p))
    ensures r == Filter(c.all, (p: string) => p in r)
  {
    var asked := set p | p in permissions;
    var out := asked;
    var areas := PermissionAreas(c);
    for k := 0 to |areas.keys|
      invariant asked <= out
      invariant forall p :: p in out && p !in asked ==> c.isRead(p) && ReadsChanged(c, permissions, p)
      invariant forall i ::
        0 <= i < k && areas.vals[areas.keys[i]].read.Some? && SomeIn(areas.vals[areas.keys[i]].changes, asked) ==>
          areas.vals[areas.keys[i]].read.value in out
    {
      var key := areas.keys[k];
      var area := areas.vals[key];
      assert SomeIn(area.changes, out) ==> SomeIn(area.changes, asked);
      if area.read.Some? && SomeIn(area.changes, out) {
        out := out + {area.read.value};
      }
    }
    forall p | ReadsChanged(c, permissions, p) ensures p in out {
      var q :| q in permissions && q in c.all && q !in c.never && !c.isRead(q)
        && ReadOf(c, c.all, c.resource(q)) == Some(p);
      var i :| 0 <= i < |areas.keys| && areas.keys[i] == c.resource(q);
      assert q in ChangesOf(c, c.all, c.resource(q)) && q in asked;
    }
    r := InCatalogue(c.all, out);
    InCatalogueIs(c.all, out, r);
  }

  lemma {:induction false} InCatalogueIs(all: seq<string>, wanted: set<string>, r: seq<string>)
    requires forall p :: p in all ==> (p in r <==> p in wanted)
    ensures InCatalogue(all, wanted) == Filter(all, (p: string) => p in r)
  {
    if all != [] {
      InCatalogueIs(all[1..], wanted, r);
    }
  }

  /** The permission reads what another changes, and is one a custom role may hold. */
  predicate Reads(c: Catalogue, p: string, q: string) {
    p in c.all && p !in c.never && c.isRead(p) && c.resource(p) == c.resource(q)
  }

  /** The permission changes something, and is one a custom role may hold. */
  predicate Changes(c: Catalogue, q: string) {
    q in c.all && q !in c.never && !c.isRead(q)
  }

  lemma {:induction false} ReadOfIs(c: Catalogue, permissions: seq<string>, key: string)
    ensures match ReadOf(c, permissions, key)
            case None => forall p :: p in permissions && p !in c.never && c.isRead(p) ==> c.resource(p) != key
            case Some(p) => p in permissions && p !in c.never && c.isRead(p) && c.resource(p) == key
  {
    if permissions != [] {
      var init, last := permissions[..|permissions| - 1], permissions[|permissions| - 1];
      assert permissions == init + [last];
      ReadOfIs(c, init, key);
    }
  }

  /**
   * With the reads added, who may change something may see it, where there is a permission to; and nothing is added but
   * what lets one see what one may change.
   */
  lemma ChangingIncludesSeeing(c: Catalogue, permissions: seq<string>, r: seq<string>)
    requires forall p :: p in r <==> p in c.all && (p in permissions || ReadsChanged(c, permissions, p))
    ensures forall p :: p in permissions && p in c.all ==> p in r
    ensures forall q :: q in r && Changes(c, q) && (exists p :: Reads(c, p, q)) ==> exists p :: p in r && Reads(c, p, q)
    ensures forall p :: p in r && p !in permissions ==> exists q :: q in permissions && Changes(c, q) && Reads(c, p, q)
  {
    forall q | q in r && Changes(c, q) && exists p :: Reads(c, p, q) ensures exists p :: p in r && Reads(c, p, q) {
      ReadOfIs(c, c.all, c.resource(q));
      var p := ReadOf(c, c.all, c.resource(q)).value;
      assert ReadsChanged(c, permissions, p) && Reads(c, p, q);
    }
    forall p | p in r && p !in permissions ensures exists q :: q in permissions && Changes(c, q) && Reads(c, p, q) {
      var q :| q in permissions && q in c.all && q !in c.never && !c.isRead(q)
        && ReadOf(c, c.all, c.resource(q)) == Some(p);
      ReadOfIs(c, c.all, c.resource(q));
      assert Changes(c, q) && Reads(c, p, q);
    }
  }
}

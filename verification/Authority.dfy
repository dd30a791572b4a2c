/**
 * Who holds what over a run of role making, editing, granting and revoking: every step is guarded by what its
 * actor holds, so nothing is held at the end that nobody held at the start, in a tenant tree of two levels.
 */
module Authority {
  import opened Prelude
  import opened Permissions

  const ROLES_MANAGE := "roles.manage"

  /** What stays the same: the permissions there are, the sub-tenants of each tenant, and the tenant of each site. */
  datatype Setting = Setting(c: Catalogue, subs: map<string, seq<string>>, siteTenant: map<string, string>)

  datatype Assignment = Assignment(role: string, scopeType: ScopeType, scopeId: Option<string>)

  datatype World = World(roles: map<string, seq<string>>, assignments: map<string, seq<Assignment>>)

  // ---------------------------------------------------------------------------
  // What an account holds
  // ---------------------------------------------------------------------------

  function Role(w: World, role: string): seq<string> {
    if role in w.roles then w.roles[role] else []
  }

  function Assigned(w: World, user: string): seq<Assignment> {
    if user in w.assignments then w.assignments[user] else []
  }

  /** One grant for each permission of the role that is still in the catalogue. */
  function GrantsOf(c: Catalogue, permissions: seq<string>, a: Assignment): (r: seq<Grant>)
    ensures forall g :: g in r <==>
      g.permission in permissions && g.permission in c.all && g.scopeType == a.scopeType && g.scopeId == a.scopeId
  {
    if permissions == [] then []
    else
      (if permissions[0] in c.all then [Grant(permissions[0], a.scopeType, a.scopeId)] else [])
      + GrantsOf(c, permissions[1..], a)
  }

  function Direct(c: Catalogue, w: World, given: seq<Assignment>): seq<Grant> {
    if given == [] then [] else GrantsOf(c, Role(w, given[0].role), given[0]) + Direct(c, w, given[1..])
  }

  /** The grants of an account, those on main tenants repeated for their sub-tenants. */
  function Effective(t: Setting, w: World, user: string): seq<Grant> {
    var direct := Direct(t.c, w, Assigned(w, user));
    direct + Passed(direct, t.subs)
  }

  predicate May(t: Setting, w: World, user: string, permission: string, target: Target) {
    IsAllowed(Effective(t, w, user), permission, target)
  }

  /** Some account may. */
  ghost predicate Held(t: Setting, w: World, permission: string, target: Target) {
    exists user :: user in w.assignments && May(t, w, user, permission, target)
  }

  /** A resource at a site belongs to the site's tenant. */
  predicate Consistent(t: Setting, target: Target) {
    target.siteId.Some? && target.siteId.value in t.siteTenant ==>
      target.tenantId == Some(t.siteTenant[target.siteId.value])
  }

  // ---------------------------------------------------------------------------
  // The steps
  // ---------------------------------------------------------------------------

  datatype Step =
    | SaveRole(actor: string, role: string, permissions: seq<string>, mspOnly: bool)
    | GrantRole(actor: string, user: string, role: string, scopeType: ScopeType, scopeId: Option<string>)
    | Revoke(user: string, kept: seq<Assignment>)

  /** What a grant covers, as its guards look at it; nothing can be granted on a cluster, or without naming what on. */
  function GrantTarget(t: Setting, scopeType: ScopeType, scopeId: Option<string>): Option<Target> {
    if scopeType == Global then (if scopeId == None then Some(NOWHERE) else None)
    else if scopeId == None || scopeId.value == "" then None
    else match scopeType
      case Tenant => Some(Target(scopeId, None, None))
      case Site =>
        if scopeId.value in t.siteTenant then Some(Target(Some(t.siteTenant[scopeId.value]), scopeId, None)) else None
      case Cluster => None
      case Global => None
  }

  /** Saving a custom role, new or not, and granting one, are refused unless their actor holds all of it. */
  predicate Accepted(t: Setting, w: World, step: Step) {
    match step
    case SaveRole(actor, _, permissions, mspOnly) =>
      && May(t, w, actor, ROLES_MANAGE, NOWHERE)
      && Problems(t.c, permissions, mspOnly, Effective(t, w, actor)) == []
    case GrantRole(actor, _, role, scopeType, scopeId) =>
      && role in w.roles
      && var target := GrantTarget(t, scopeType, scopeId);
      && target.Some?
      && May(t, w, actor, ROLES_MANAGE, target.value)
      && BeyondGrantor(Known(t.c, w.roles[role]), Effective(t, w, actor), target.value) == []
    case Revoke(user, kept) =>
      multiset(kept) <= multiset(Assigned(w, user))
  }

  function Known(c: Catalogue, permissions: seq<string>): (r: seq<string>)
    ensures forall p :: p in r <==> p in permissions && p in c.all
  {
    if permissions == [] then []
    else (if permissions[0] in c.all then [permissions[0]] else []) + Known(c, permissions[1..])
  }

  /** The world after a step; one that is refused changes nothing. */
  function Apply(t: Setting, w: World, step: Step): World {
    if !Accepted(t, w, step) then w
    else match step
      case SaveRole(_, role, permissions, _) => w.(roles := w.roles[role := permissions])
      case GrantRole(_, user, role, scopeType, scopeId) =>
        w.(assignments := w.assignments[user := Assigned(w, user) + [Assignment(role, scopeType, scopeId)]])
      case Revoke(user, kept) => w.(assignments := w.assignments[user := kept])
  }

  function Run(t: Setting, w: World, steps: seq<Step>): World
    decreases |steps|
  {
    if steps == [] then w else Run(t, Apply(t, w, steps[0]), steps[1..])
  }

  // ---------------------------------------------------------------------------
  // What is held, without lists
  // ---------------------------------------------------------------------------

  lemma {:induction false} DirectGrants(c: Catalogue, w: World, given: seq<Assignment>, g: Grant)
    ensures g in Direct(c, w, given) <==>
      && g.permission in c.all
      && exists a ::
        a in given && g.permission in Role(w, a.role) && g.scopeType == a.scopeType && g.scopeId == a.scopeId
  {
    if given != [] {
      DirectGrants(c, w, given[1..], g);
      assert given == [given[0]] + given[1..];
      assert forall a :: a in given <==> a == given[0] || a in given[1..];
    }
  }

  /** A scope reaches what it names, and one on a tenant its sub-tenants. */
  predicate ScopeReaches(subs: map<string, seq<string>>, scopeType: ScopeType, scopeId: Option<string>,
                         target: Target) {
    match scopeType
    case Global => true
    case Tenant => scopeId.Some? && scopeId.value != "" &&
      (scopeId == target.tenantId
       || (target.tenantId.Some? && target.tenantId.value != "" && target.tenantId.value in Subs(subs, scopeId.value)))
    case Site => Names(scopeId, target.siteId)
    case Cluster => Names(scopeId, target.clusterId)
  }

  predicate Reaches(t: Setting, a: Assignment, target: Target) {
    ScopeReaches(t.subs, a.scopeType, a.scopeId, target)
  }

  /** A list of grants, widened to sub-tenants, allows what one of them reaches. */
  lemma WidenedGrantsAllow(direct: seq<Grant>, subs: map<string, seq<string>>, permission: string, target: Target)
    ensures IsAllowed(direct + Passed(direct, subs), permission, target) <==>
      exists g :: g in direct && g.permission == permission && ScopeReaches(subs, g.scopeType, g.scopeId, target)
  {
    if IsAllowed(direct + Passed(direct, subs), permission, target) {
      var g :| g in direct + Passed(direct, subs) && Covers(g, permission, target);
      PassedFrom(direct, subs, g);
    }
    if g :| g in direct && g.permission == permission && ScopeReaches(subs, g.scopeType, g.scopeId, target) {
      if Covers(g, permission, target) {
        assert g in direct + Passed(direct, subs);
      } else {
        assert Flows(g) && target.tenantId.value in Subs(subs, g.scopeId.value);
        var passed := Grant(permission, Tenant, Some(target.tenantId.value));
        PassedFrom(direct, subs, passed);
        assert passed in direct + Passed(direct, subs);
        assert Covers(passed, permission, target);
      }
    }
  }

  /** An account may do what a role assigned to it holds, wherever that assignment reaches. */
  lemma MayIffAssigned(t: Setting, w: World, user: string, permission: string, target: Target)
    ensures May(t, w, user, permission, target) <==>
      && permission in t.c.all
      && exists a :: a in Assigned(w, user) && permission in Role(w, a.role) && Reaches(t, a, target)
  {
    var given := Assigned(w, user);
    var direct := Direct(t.c, w, given);
    WidenedGrantsAllow(direct, t.subs, permission, target);
    if May(t, w, user, permission, target) {
      var g :| g in direct && g.permission == permission && ScopeReaches(t.subs, g.scopeType, g.scopeId, target);
      DirectGrants(t.c, w, given, g);
    }
    if a :| permission in t.c.all && a in given && permission in Role(w, a.role) && Reaches(t, a, target) {
      DirectGrants(t.c, w, given, Grant(permission, a.scopeType, a.scopeId));
    }
  }

  // ---------------------------------------------------------------------------
  // Nothing new is held
  // ---------------------------------------------------------------------------

  /** The sub-tenants of a sub-tenant, if it has any, belong to the main tenant too. */
  ghost predicate Closed(subs: map<string, seq<string>>) {
    forall main, sub, subsub ::
      (main != "" && sub != "" && subsub != "" && sub in Subs(subs, main) && subsub in Subs(subs, sub))
      ==> subsub == main || subsub in Subs(subs, main)
  }

  /** Sub-tenants have no sub-tenants of their own. */
  ghost predicate TwoLevels(subs: map<string, seq<string>>) {
    forall main, sub :: sub in Subs(subs, main) ==> Subs(subs, sub) == []
  }

  lemma TwoLevelsAreClosed(subs: map<string, seq<string>>)
    requires TwoLevels(subs)
    ensures Closed(subs)
  {
  }

  /** What the grantor reaches, checked where a role is granted, covers all that the new assignment reaches. */
  lemma GrantReachesNoFurther(t: Setting, held: Assignment, given: Assignment, target: Target)
    requires Closed(t.subs) && Consistent(t, target)
    requires GrantTarget(t, given.scopeType, given.scopeId).Some?
    requires Reaches(t, held, GrantTarget(t, given.scopeType, given.scopeId).value)
    requires Reaches(t, given, target)
    ensures Reaches(t, held, target)
  {
  }

  /** Someone may: the permission is known, and an assignment of a role with it reaches the target. */
  ghost predicate SomeoneHolds(t: Setting, w: World, user: string, a: Assignment, permission: string, target: Target) {
    && permission in t.c.all
    && a in Assigned(w, user)
    && permission in Role(w, a.role)
    && Reaches(t, a, target)
  }

  lemma HeldIff(t: Setting, w: World, permission: string, target: Target)
    ensures Held(t, w, permission, target) <==> exists user, a :: SomeoneHolds(t, w, user, a, permission, target)
  {
    if Held(t, w, permission, target) {
      var user :| user in w.assignments && May(t, w, user, permission, target);
      MayIffAssigned(t, w, user, permission, target);
      var a :| a in Assigned(w, user) && permission in Role(w, a.role) && Reaches(t, a, target);
      assert SomeoneHolds(t, w, user, a, permission, target);
    }
    if user, a :| SomeoneHolds(t, w, user, a, permission, target) {
      MayIffAssigned(t, w, user, permission, target);
    }
  }

  lemma SavingAddsNothing(t: Setting, w: World, step: Step, user: string, a: Assignment, permission: string,
                          target: Target)
    requires step.SaveRole? && Accepted(t, w, step)
    requires SomeoneHolds(t, Apply(t, w, step), user, a, permission, target)
    ensures Held(t, w, permission, target)
  {
    if permission in Role(w, a.role) {
      assert SomeoneHolds(t, w, user, a, permission, target);
      HeldIff(t, w, permission, target);
    } else {
      assert permission in step.permissions;
      assert ProblemWith(t.c, permission, step.mspOnly, Effective(t, w, step.actor)) == None;
      AllowedNowhereIsGlobal(Effective(t, w, step.actor), permission);
      assert May(t, w, step.actor, permission, target);
      MayIsHeld(t, w, step.actor, permission, target);
    }
  }

  lemma GrantingAddsNothing(t: Setting, w: World, step: Step, user: string, a: Assignment, permission: string,
                            target: Target)
    requires Closed(t.subs) && Consistent(t, target)
    requires step.GrantRole? && Accepted(t, w, step)
    requires SomeoneHolds(t, Apply(t, w, step), user, a, permission, target)
    ensures Held(t, w, permission, target)
  {
    if a in Assigned(w, user) {
      assert SomeoneHolds(t, w, user, a, permission, target);
      HeldIff(t, w, permission, target);
    } else {
      var at := GrantTarget(t, step.scopeType, step.scopeId).value;
      assert a == Assignment(step.role, step.scopeType, step.scopeId);
      assert permission in Known(t.c, w.roles[step.role]);
      assert May(t, w, step.actor, permission, at);
      MayIffAssigned(t, w, step.actor, permission, at);
      var held :| held in Assigned(w, step.actor) && permission in Role(w, held.role) && Reaches(t, held, at);
      GrantReachesNoFurther(t, held, a, target);
      assert SomeoneHolds(t, w, step.actor, held, permission, target);
      HeldIff(t, w, permission, target);
    }
  }

  lemma StepAddsNothing(t: Setting, w: World, step: Step, permission: string, target: Target)
    requires Closed(t.subs) && Consistent(t, target)
    requires Held(t, Apply(t, w, step), permission, target)
    ensures Held(t, w, permission, target)
  {
    if Accepted(t, w, step) {
      var after := Apply(t, w, step);
      HeldIff(t, after, permission, target);
      var user, a :| SomeoneHolds(t, after, user, a, permission, target);
      match step
      case SaveRole(_, _, _, _) => SavingAddsNothing(t, w, step, user, a, permission, target);
      case GrantRole(_, _, _, _, _) => GrantingAddsNothing(t, w, step, user, a, permission, target);
      case Revoke(whose, kept) =>
        assert whose == user ==> a in multiset(kept);
        assert SomeoneHolds(t, w, user, a, permission, target);
        HeldIff(t, w, permission, target);
    }
  }

  lemma MayIsHeld(t: Setting, w: World, user: string, permission: string, target: Target)
    requires May(t, w, user, permission, target)
    ensures Held(t, w, permission, target)
  {
    MayIffAssigned(t, w, user, permission, target);
  }

  lemma {:induction false} RunAddsNothing(t: Setting, w: World, steps: seq<Step>, permission: string, target: Target)
    requires Closed(t.subs) && Consistent(t, target)
    requires Held(t, Run(t, w, steps), permission, target)
    ensures Held(t, w, permission, target)
    decreases |steps|
  {
    if steps != [] {
      RunAddsNothing(t, Apply(t, w, steps[0]), steps[1..], permission, target);
      StepAddsNothing(t, w, steps[0], permission, target);
    }
  }

  // ---------------------------------------------------------------------------
  // What granting a role takes and gives
  // ---------------------------------------------------------------------------

  /** A role is granted for the installation, a tenant, or a site, which is looked at with its tenant. */
  predicate GrantedAt(t: Setting, scopeType: ScopeType, scopeId: Option<string>, at: Target) {
    match scopeType
    case Global => scopeId == None && at == NOWHERE
    case Tenant => scopeId.Some? && scopeId.value != "" && at == Target(scopeId, None, None)
    case Site =>
      && scopeId.Some? && scopeId.value != "" && scopeId.value in t.siteTenant
      && at == Target(Some(t.siteTenant[scopeId.value]), scopeId, None)
    case Cluster => false
  }

  /** Granting a role is carried out exactly when its actor may manage roles there and holds all of the role there. */
  lemma GrantAcceptedIff(t: Setting, w: World, step: Step)
    requires step.GrantRole?
    ensures Accepted(t, w, step) <==>
      && step.role in w.roles
      && exists at :: GrantedAt(t, step.scopeType, step.scopeId, at)
                      && May(t, w, step.actor, ROLES_MANAGE, at)
                      && forall p :: p in w.roles[step.role] && p in t.c.all ==> May(t, w, step.actor, p, at)
  {
    var target := GrantTarget(t, step.scopeType, step.scopeId);
    assert forall at :: GrantedAt(t, step.scopeType, step.scopeId, at) <==> target == Some(at);
    if step.role in w.roles && target.Some? {
      var beyond := BeyondGrantor(Known(t.c, w.roles[step.role]), Effective(t, w, step.actor), target.value);
      if beyond != [] {
        assert beyond[0] in beyond;
      }
    }
  }

  /** And then who it is granted to may do all of it, wherever the grant reaches. */
  lemma GrantGives(t: Setting, w: World, step: Step, permission: string, target: Target)
    requires step.GrantRole? && Accepted(t, w, step)
    requires permission in w.roles[step.role] && permission in t.c.all
    requires ScopeReaches(t.subs, step.scopeType, step.scopeId, target)
    ensures May(t, Apply(t, w, step), step.user, permission, target)
  {
    var after, a := Apply(t, w, step), Assignment(step.role, step.scopeType, step.scopeId);
    assert a in Assigned(after, step.user) && permission in Role(after, a.role) && Reaches(t, a, target);
    MayIffAssigned(t, after, step.user, permission, target);
  }

  // ---------------------------------------------------------------------------
  // What saved roles hold
  // ---------------------------------------------------------------------------

  /** All exist, none is one that no custom role holds, and a role customers may be given has none but theirs. */
  ghost predicate Allowable(c: Catalogue, permissions: seq<string>, mspOnly: bool) {
    forall p :: p in permissions ==> p in c.all && p !in c.never && (!mspOnly ==> p in c.customer)
  }

  /** A role may be saved exactly with what it may hold and its maker holds for the whole installation. */
  lemma MayBeSavedIff(c: Catalogue, permissions: seq<string>, mspOnly: bool, maker: seq<Grant>)
    ensures Problems(c, permissions, mspOnly, maker) == [] <==>
      && Allowable(c, permissions, mspOnly)
      && forall p :: p in permissions ==> exists g :: g in maker && g.permission == p && g.scopeType == Global
  {
    forall p ensures IsAllowed(maker, p, NOWHERE) <==>
      exists g :: g in maker && g.permission == p && g.scopeType == Global
    {
      AllowedNowhereIsGlobal(maker, p);
    }
    if Allowable(c, permissions, mspOnly)
       && forall p :: p in permissions ==> exists g :: g in maker && g.permission == p && g.scopeType == Global {
      forall p | p in permissions ensures ProblemWith(c, p, mspOnly, maker) == None {
      }
    } else if Problems(c, permissions, mspOnly, maker) == [] {
      forall p | p in permissions ensures ProblemWith(c, p, mspOnly, maker) == None {
      }
    }
  }

  /** The step saves the role, and is carried out. */
  predicate Saves(t: Setting, w: World, step: Step, role: string) {
    step.SaveRole? && step.role == role && Accepted(t, w, step)
  }

  lemma SavedIsAllowable(t: Setting, w: World, step: Step, role: string)
    requires Saves(t, w, step, role)
    ensures Allowable(t.c, step.permissions, step.mspOnly)
    ensures role in Apply(t, w, step).roles && Apply(t, w, step).roles[role] == step.permissions
  {
    forall p | p in step.permissions
      ensures p in t.c.all && p !in t.c.never && (!step.mspOnly ==> p in t.c.customer)
    {
      assert ProblemWith(t.c, p, step.mspOnly, Effective(t, w, step.actor)) == None;
    }
  }

  /** No step of a run saves the role. */
  ghost predicate NeverSaved(t: Setting, w: World, steps: seq<Step>, role: string) {
    forall i :: 0 <= i < |steps| ==> !Saves(t, Run(t, w, steps[..i]), steps[i], role)
  }

  /** Step `i` of a run is the last that saves the role. */
  ghost predicate LastSaved(t: Setting, w: World, steps: seq<Step>, role: string, i: nat) {
    && i < |steps| && Saves(t, Run(t, w, steps[..i]), steps[i], role)
    && forall j :: i < j < |steps| ==> !Saves(t, Run(t, w, steps[..j]), steps[j], role)
  }

  lemma RunFromSecond(t: Setting, w: World, steps: seq<Step>, i: nat)
    requires 0 < i <= |steps|
    ensures Run(t, w, steps[..i]) == Run(t, Apply(t, w, steps[0]), steps[1..][..i - 1])
  {
    assert steps[..i][0] == steps[0] && steps[..i][1..] == steps[1..][..i - 1];
  }

  lemma SavedLater(t: Setting, w: World, steps: seq<Step>, role: string, i: nat)
    requires 0 < i < |steps|
    ensures Saves(t, Run(t, w, steps[..i]), steps[i], role)
       <==> Saves(t, Run(t, Apply(t, w, steps[0]), steps[1..][..i - 1]), steps[1..][i - 1], role)
  {
    RunFromSecond(t, w, steps, i);
  }

  /**
   * After any run a role has what it was last saved with, every permission of it one that such a role may hold, or is
   * as it was at the start.
   */
  lemma {:induction false} RolesAreAsSaved(t: Setting, w: World, steps: seq<Step>, role: string)
    returns (last: Option<nat>)
    ensures match last
            case None =>
              && NeverSaved(t, w, steps, role)
              && (role in Run(t, w, steps).roles <==> role in w.roles)
              && (role in w.roles ==> Run(t, w, steps).roles[role] == w.roles[role])
            case Some(i) =>
              && LastSaved(t, w, steps, role, i)
              && role in Run(t, w, steps).roles && Run(t, w, steps).roles[role] == steps[i].permissions
              && Allowable(t.c, steps[i].permissions, steps[i].mspOnly)
    decreases |steps|
  {
    last := None;
    if steps != [] {
      var next := Apply(t, w, steps[0]);
      var later := RolesAreAsSaved(t, next, steps[1..], role);
      forall i | 0 < i < |steps| ensures Saves(t, Run(t, w, steps[..i]), steps[i], role)
        <==> Saves(t, Run(t, next, steps[1..][..i - 1]), steps[1..][i - 1], role)
      {
        SavedLater(t, w, steps, role, i);
      }
      assert steps[..0] == [];
      if later.Some? {
        last := Some(later.value + 1);
      } else if Saves(t, w, steps[0], role) {
        SavedIsAllowable(t, w, steps[0], role);
        last := Some(0);
      }
    }
  }

  /** No run from any world hands out anything, on any resource, that nobody held before it. */
  ghost predicate NeverGrows(t: Setting) {
    forall w, steps, permission, target :: Consistent(t, target) && Held(t, Run(t, w, steps), permission, target)
      ==> Held(t, w, permission, target)
  }

  /** Authority never grows exactly when passing grants down a second time would reach nothing new. */
  lemma NeverGrowsIffClosed(t: Setting)
    requires ROLES_MANAGE in t.c.all
    ensures NeverGrows(t) <==> Closed(t.subs)
    ensures TwoLevels(t.subs) ==> NeverGrows(t)
  {
    if Closed(t.subs) {
      forall w, steps, permission, target | Consistent(t, target) && Held(t, Run(t, w, steps), permission, target)
        ensures Held(t, w, permission, target)
      {
        RunAddsNothing(t, w, steps, permission, target);
      }
    } else {
      var main, sub, subsub :| main != "" && sub != "" && subsub != ""
        && sub in Subs(t.subs, main) && subsub in Subs(t.subs, sub) && subsub != main && subsub !in Subs(t.subs, main);
      ThirdLevelGrows(t, main, sub, subsub);
    }
    if TwoLevels(t.subs) {
      TwoLevelsAreClosed(t.subs);
    }
  }

  /** One account holds a role with the one permission, on a tenant; with it granted to another account on a second. */
  ghost function OneHolder(ann: string, role: string, tenant: string): World {
    World(map[role := [ROLES_MANAGE]], map[ann := [Assignment(role, Tenant, Some(tenant))]])
  }

  ghost function TwoHolders(ann: string, bob: string, role: string, tenant: string, other: string): World {
    World(map[role := [ROLES_MANAGE]],
          map[ann := [Assignment(role, Tenant, Some(tenant))], bob := [Assignment(role, Tenant, Some(other))]])
  }

  lemma SecondHolder(t: Setting, ann: string, bob: string, role: string, main: string, sub: string)
    requires ROLES_MANAGE in t.c.all && ann != bob
    requires main != "" && sub != "" && sub in Subs(t.subs, main)
    ensures Run(t, OneHolder(ann, role, main), [GrantRole(ann, bob, role, Tenant, Some(sub))])
      == TwoHolders(ann, bob, role, main, sub)
  {
    var w, at, held := OneHolder(ann, role, main), Target(Some(sub), None, None), Assignment(role, Tenant, Some(main));
    var step := GrantRole(ann, bob, role, Tenant, Some(sub));
    assert Assigned(w, ann) == [held];
    assert Reaches(t, held, at);
    MayIffAssigned(t, w, ann, ROLES_MANAGE, at);
    GrantedByItsHolder(t, w, ann, bob, role, sub);
    assert [step][1..] == [];
    assert Assigned(w, bob) + [Assignment(role, Tenant, Some(sub))] == [Assignment(role, Tenant, Some(sub))];
  }

  lemma GrowthRefutes(t: Setting, w: World, steps: seq<Step>, after: World, permission: string, target: Target)
    requires Run(t, w, steps) == after && Consistent(t, target)
    requires Held(t, after, permission, target) && !Held(t, w, permission, target)
    ensures !NeverGrows(t)
  {
  }

  /** A role held on the main tenant, granted on its sub-tenant, reaches what is below that. */
  lemma ThirdLevelGrows(t: Setting, main: string, sub: string, subsub: string)
    requires ROLES_MANAGE in t.c.all
    requires main != "" && sub != "" && subsub != ""
    requires sub in Subs(t.subs, main) && subsub in Subs(t.subs, sub) && subsub != main && subsub !in Subs(t.subs, main)
    ensures !NeverGrows(t)
  {
    var ann, bob, role, below := "ann", "bob", "admin", Target(Some(subsub), None, None);
    assert ann != bob by { assert ann[0] != bob[0]; }
    SecondHolder(t, ann, bob, role, main, sub);
    OnlyBelow(t, ann, bob, role, main, sub, subsub);
    GrowthRefutes(t, OneHolder(ann, role, main), [GrantRole(ann, bob, role, Tenant, Some(sub))],
                  TwoHolders(ann, bob, role, main, sub), ROLES_MANAGE, below);
  }

  lemma OnlyBelow(t: Setting, ann: string, bob: string, role: string, main: string, sub: string, subsub: string)
    requires ROLES_MANAGE in t.c.all && ann != bob
    requires main != "" && sub != "" && subsub != ""
    requires sub in Subs(t.subs, main) && subsub in Subs(t.subs, sub) && subsub != main && subsub !in Subs(t.subs, main)
    ensures !Held(t, OneHolder(ann, role, main), ROLES_MANAGE, Target(Some(subsub), None, None))
    ensures Held(t, TwoHolders(ann, bob, role, main, sub), ROLES_MANAGE, Target(Some(subsub), None, None))
  {
    var before, after, below := OneHolder(ann, role, main), TwoHolders(ann, bob, role, main, sub),
      Target(Some(subsub), None, None);
    HeldIff(t, before, ROLES_MANAGE, below);
    HeldIff(t, after, ROLES_MANAGE, below);
    assert SomeoneHolds(t, after, bob, Assignment(role, Tenant, Some(sub)), ROLES_MANAGE, below);
  }

  lemma {:induction false} NothingBeyond(permissions: seq<string>, grantor: seq<Grant>, target: Target)
    requires forall p :: p in permissions ==> IsAllowed(grantor, p, target)
    ensures BeyondGrantor(permissions, grantor, target) == []
  {
    if permissions != [] {
      assert permissions[0] in permissions;
      NothingBeyond(permissions[1..], grantor, target);
    }
  }

  /** Granting a role of one permission on a tenant is accepted from who holds it there and may grant. */
  lemma GrantedByItsHolder(t: Setting, w: World, actor: string, user: string, role: string, tenant: string)
    requires tenant != "" && role in w.roles && w.roles[role] == [ROLES_MANAGE]
    requires May(t, w, actor, ROLES_MANAGE, Target(Some(tenant), None, None))
    ensures Accepted(t, w, GrantRole(actor, user, role, Tenant, Some(tenant)))
  {
    NothingBeyond(Known(t.c, w.roles[role]), Effective(t, w, actor), Target(Some(tenant), None, None));
  }
}

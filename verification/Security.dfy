/** `reconcile_security` of `crates/pglite/src/replica/backfill.rs`: roles, memberships,
    row-level security, grants and policies are made those of the upstream catalog. */
module Security {
  import opened Wrappers
  import opened SqlText
  import opened Database

  // ---- The catalog ----

  datatype RoleDef = RoleDef(name: string, inherit: bool)

  datatype Membership = Membership(grp: string, member: string, admin: bool)

  datatype RlsFlag = RlsFlag(target: Target, enabled: bool, forced: bool)

  datatype TableGrant = TableGrant(target: Target, grantee: string)

  datatype PolicyDef = PolicyDef(
    target: Target, name: string, permissive: bool, cmd: string, roles: seq<string>,
    condition: Option<string>, check: Option<string>)

  datatype Catalog = Catalog(
    roles: seq<RoleDef>, memberships: seq<Membership>, tables: seq<RlsFlag>,
    grants: seq<TableGrant>, policies: seq<PolicyDef>)

  // ---- The local server ----

  /** PUBLIC, a role made by a user, or a role the server came with. */
  datatype Grantee = Public | User(name: string) | Predefined(name: string)

  datatype Role = Role(login: bool, bypassRls: bool, inherit: bool)

  datatype Policy = Policy(
    permissive: bool, cmd: string, to: set<Grantee>, condition: Option<string>, check: Option<string>)

  datatype TableSec = TableSec(enabled: bool, forced: bool, grants: set<Grantee>, policies: map<string, Policy>)

  type Link = (string, string)

  /** `predefined` are the roles the server came with, the one that owns it among them. */
  datatype State = State(
    predefined: set<string>, roles: map<string, Role>, members: map<Link, bool>, tables: map<Target, TableSec>)

  /** The names that stand for a role. */
  datatype Who = Who(predefined: set<string>, users: set<string>)

  function RoleNamed(predefined: set<string>, name: string): Grantee {
    if name in predefined then Predefined(name) else User(name)
  }

  function GranteeOf(predefined: set<string>, name: string): Grantee {
    if name == "PUBLIC" then Public else RoleNamed(predefined, name)
  }

  function PolicyOf(predefined: set<string>, p: PolicyDef): Policy {
    var to := if "public" in p.roles then {Public} else set r | r in p.roles :: RoleNamed(predefined, r);
    Policy(p.permissive, p.cmd, to, p.condition, p.check)
  }

  predicate IsRole(who: Who, name: string) { name in who.users || name in who.predefined }

  predicate Exists(who: Who, g: Grantee) {
    match g
    case Public => true
    case User(name) => name in who.users
    case Predefined(name) => name in who.predefined
  }

  const MISSING := Error.Database("42704")
  const DUPLICATE := Error.Database("42710")
  const NO_TABLE := Error.Database("42P01")
  const SYNTAX := Error.Database("42601")

  function Linked(members: map<Link, bool>, link: Link, admin: bool): map<Link, bool> {
    members[link := admin || (link in members && members[link])]
  }

  function WithPolicy(predefined: set<string>, t: TableSec, p: PolicyDef): TableSec {
    t.(policies := t.policies[p.name := PolicyOf(predefined, p)])
  }

  predicate PolicyRolesOk(who: Who, p: PolicyDef) {
    p.roles != [] && ("public" in p.roles || forall r | r in p.roles :: IsRole(who, r))
  }

  /** One statement at a time. */
  class Server {
    const predefined: set<string>
    var roles: map<string, Role>
    var members: map<Link, bool>
    var tables: map<Target, TableSec>

    function Now(): State
      reads this
    {
      State(predefined, roles, members, tables)
    }

    function Known(): Who
      reads this`roles
    {
      Who(predefined, roles.Keys)
    }

    method CreateRole(name: string) returns (o: Outcome)
      modifies this`roles
      ensures o == Need(!IsRole(old(Known()), name), DUPLICATE)
      ensures roles == if o.Pass? then old(roles)[name := Role(false, false, true)] else old(roles)
    {
      if name in roles || name in predefined {
        return Fail(DUPLICATE);
      }
      roles := roles[name := Role(false, false, true)];
      return Pass;
    }

    method AlterRole(name: string, inherit: bool) returns (o: Outcome)
      modifies this`roles
      ensures o == Need(name in old(roles), MISSING)
      ensures roles == if o.Pass? then old(roles)[name := Role(false, false, inherit)] else old(roles)
    {
      if name !in roles {
        return Fail(MISSING);
      }
      roles := roles[name := Role(false, false, inherit)];
      return Pass;
    }

    method RevokeRole(link: Link) returns (o: Outcome)
      modifies this`members
      ensures o == Need(IsRole(Known(), link.0) && IsRole(Known(), link.1), MISSING)
      ensures members == if o.Pass? then old(members) - {link} else old(members)
    {
      if !IsRole(Known(), link.0) || !IsRole(Known(), link.1) {
        return Fail(MISSING);
      }
      members := members - {link};
      return Pass;
    }

    method GrantRole(link: Link, admin: bool) returns (o: Outcome)
      modifies this`members
      ensures o == Need(IsRole(Known(), link.0) && IsRole(Known(), link.1), MISSING)
      ensures members == if o.Pass? then Linked(old(members), link, admin) else old(members)
    {
      if !IsRole(Known(), link.0) || !IsRole(Known(), link.1) {
        return Fail(MISSING);
      }
      members := Linked(members, link, admin);
      return Pass;
    }

    method SetEnabled(t: Target, enabled: bool) returns (o: Outcome)
      modifies this`tables
      ensures o == Need(t in old(tables), NO_TABLE)
      ensures tables == if o.Pass? then old(tables)[t := old(tables)[t].(enabled := enabled)] else old(tables)
    {
      if t !in tables {
        return Fail(NO_TABLE);
      }
      tables := tables[t := tables[t].(enabled := enabled)];
      return Pass;
    }

    method SetForced(t: Target, forced: bool) returns (o: Outcome)
      modifies this`tables
      ensures o == Need(t in old(tables), NO_TABLE)
      ensures tables == if o.Pass? then old(tables)[t := old(tables)[t].(forced := forced)] else old(tables)
    {
      if t !in tables {
        return Fail(NO_TABLE);
      }
      tables := tables[t := tables[t].(forced := forced)];
      return Pass;
    }

    method RevokeSelect(t: Target, g: Grantee) returns (o: Outcome)
      requires t in tables
      modifies this`tables
      ensures o == Need(Exists(Known(), g), MISSING)
      ensures tables == if o.Pass? then old(tables)[t := old(tables)[t].(grants := old(tables)[t].grants - {g})]
                        else old(tables)
    {
      if !Exists(Known(), g) {
        return Fail(MISSING);
      }
      tables := tables[t := tables[t].(grants := tables[t].grants - {g})];
      return Pass;
    }

    method GrantSelect(t: Target, g: Grantee) returns (o: Outcome)
      requires t in tables
      modifies this`tables
      ensures o == Need(Exists(Known(), g), MISSING)
      ensures tables == if o.Pass? then old(tables)[t := old(tables)[t].(grants := old(tables)[t].grants + {g})]
                        else old(tables)
    {
      if !Exists(Known(), g) {
        return Fail(MISSING);
      }
      tables := tables[t := tables[t].(grants := tables[t].grants + {g})];
      return Pass;
    }

    method DropPolicyIfExists(t: Target, name: string) returns (o: Outcome)
      requires t in tables
      modifies this`tables
      ensures o == Pass
      ensures tables == old(tables)[t := old(tables)[t].(policies := old(tables)[t].policies - {name})]
    {
      tables := tables[t := tables[t].(policies := tables[t].policies - {name})];
      return Pass;
    }

    /** TO needs a role, and every role named must exist. */
    method CreatePolicy(p: PolicyDef) returns (o: Outcome)
      requires p.target in tables
      modifies this`tables
      ensures o.Pass? <==> p.name !in old(tables)[p.target].policies && PolicyRolesOk(Known(), p)
      ensures tables == if o.Pass?
                        then old(tables)[p.target := WithPolicy(predefined, old(tables)[p.target], p)]
                        else old(tables)
    {
      if p.name in tables[p.target].policies {
        return Fail(DUPLICATE);
      }
      if p.roles == [] {
        return Fail(SYNTAX);
      }
      if !PolicyRolesOk(Known(), p) {
        return Fail(MISSING);
      }
      tables := tables[p.target := WithPolicy(predefined, tables[p.target], p)];
      return Pass;
    }
  }

  // ---- What the catalog asks for, entry by entry ----

  /** A policy of the catalog is for PUBLIC when "public" is among its roles, and else for the
      roles it names. */
  predicate IsFor(predefined: set<string>, p: PolicyDef, g: Grantee) {
    match g
    case Public => "public" in p.roles
    case User(name) => "public" !in p.roles && name in p.roles && name !in predefined
    case Predefined(name) => "public" !in p.roles && name in p.roles && name in predefined
  }

  /** The local policy is the catalog's, field by field. */
  ghost predicate MadeOf(predefined: set<string>, p: PolicyDef, made: Policy) {
    && made.permissive == p.permissive && made.cmd == p.cmd
    && made.condition == p.condition && made.check == p.check
    && forall g :: g in made.to <==> IsFor(predefined, p, g)
  }

  /** The table has a policy of a name exactly when the catalog has one for it, and it is that
      policy. */
  ghost predicate PoliciesAsIn(
      predefined: set<string>, ps: seq<PolicyDef>, t: Target, policies: map<string, Policy>)
  {
    && (forall name | name in policies :: exists p :: p in ps && p.target == t && p.name == name)
    && forall p | p in ps && p.target == t :: p.name in policies && MadeOf(predefined, p, policies[p.name])
  }

  predicate GrantedTo(gs: seq<TableGrant>, t: Target, name: string) { TableGrant(t, name) in gs }

  /** SELECT is for PUBLIC exactly when the catalog says "PUBLIC", for a user's role exactly when
      the catalog names it, and for a predefined role when it was before or the catalog names
      it. */
  ghost predicate GrantsAsIn(
      predefined: set<string>, gs: seq<TableGrant>, t: Target, before: set<Grantee>, after: set<Grantee>)
  {
    forall g :: g in after <==>
      match g
      case Public => GrantedTo(gs, t, "PUBLIC")
      case User(name) => name != "PUBLIC" && name !in predefined && GrantedTo(gs, t, name)
      case Predefined(name) =>
        g in before || (name != "PUBLIC" && name in predefined && GrantedTo(gs, t, name))
  }

  // ---- The state asked for ----

  function NameOf(r: RoleDef): string { r.name }

  function TargetOf(t: RlsFlag): Target { t.target }

  function LinkOf(m: Membership): Link { (m.grp, m.member) }

  /** The keys that the system catalogs keep unique. */
  predicate UniqueKeys(cat: Catalog) { Distinct(Map(NameOf, cat.roles)) && Distinct(Map(TargetOf, cat.tables)) }

  function RolesAfter(roles: map<string, Role>, defs: seq<RoleDef>): map<string, Role> {
    if defs == [] then roles
    else
      var r := defs[|defs| - 1];
      RolesAfter(roles, defs[..|defs| - 1])[r.name := Role(false, false, r.inherit)]
  }

  /** A membership that involves a role the server came with. */
  predicate Foreign(predefined: set<string>, link: Link) { link.0 in predefined || link.1 in predefined }

  function ForeignLinks(predefined: set<string>, members: map<Link, bool>): map<Link, bool> {
    map l | l in members && Foreign(predefined, l) :: members[l]
  }

  /** The memberships after the grants of the catalog. */
  function Granted(members: map<Link, bool>, ms: seq<Membership>): map<Link, bool> {
    if ms == [] then members
    else Linked(Granted(members, ms[..|ms| - 1]), LinkOf(ms[|ms| - 1]), ms[|ms| - 1].admin)
  }

  function GrantsOf(predefined: set<string>, gs: seq<TableGrant>, t: Target): set<Grantee> {
    set g | g in gs && g.target == t :: GranteeOf(predefined, g.grantee)
  }

  function PoliciesOf(predefined: set<string>, ps: seq<PolicyDef>, t: Target): map<string, Policy> {
    if ps == [] then map[]
    else
      var p, before := ps[|ps| - 1], PoliciesOf(predefined, ps[..|ps| - 1], t);
      if p.target == t then before[p.name := PolicyOf(predefined, p)] else before
  }

  function Kept(grants: set<Grantee>): set<Grantee> { set g | g in grants && g.Predefined? }

  /** The security of a published table: row-level security on or off and forced alike, the
      catalog's grants beside those of predefined roles, and the catalog's policies. */
  function TableAfter(predefined: set<string>, cat: Catalog, t: RlsFlag, before: TableSec): TableSec {
    var grants := Kept(before.grants) + GrantsOf(predefined, cat.grants, t.target);
    TableSec(t.enabled, t.enabled, grants, PoliciesOf(predefined, cat.policies, t.target))
  }

  ghost predicate TablesAfter(
      predefined: set<string>, cat: Catalog, n: nat, before: map<Target, TableSec>, after: map<Target, TableSec>)
    requires n <= |cat.tables|
  {
    && after.Keys == before.Keys
    && (forall i | 0 <= i < n :: cat.tables[i].target in before &&
         after[cat.tables[i].target] == TableAfter(predefined, cat, cat.tables[i], before[cat.tables[i].target]))
    && forall t | t in before && (forall i | 0 <= i < n :: cat.tables[i].target != t) :: after[t] == before[t]
  }

  ghost predicate Reconciled(cat: Catalog, before: State, after: State) {
    && after.predefined == before.predefined
    && after.roles == RolesAfter(before.roles, cat.roles)
    && after.members == Granted(ForeignLinks(before.predefined, before.members), cat.memberships)
    && TablesAfter(before.predefined, cat, |cat.tables|, before.tables, after.tables)
  }

  /** The roles there are once those of the catalog exist. */
  function WhoAfter(cat: Catalog, s: State): Who { Who(s.predefined, RolesAfter(s.roles, cat.roles).Keys) }

  /** The catalog gives no role the name of one the server came with, speaks of tables and
      roles that there are, and names no policy of a table twice. */
  ghost predicate Consistent(cat: Catalog, s: State) {
    && (forall r | r in cat.roles :: r.name !in s.predefined)
    && (forall m | m in cat.memberships :: IsRole(WhoAfter(cat, s), m.grp) && IsRole(WhoAfter(cat, s), m.member))
    && (forall t | t in cat.tables :: t.target in s.tables && TableConsistent(cat, t.target, WhoAfter(cat, s)))
  }

  ghost predicate TableConsistent(cat: Catalog, t: Target, who: Who) {
    && (forall g | g in cat.grants && g.target == t :: Exists(who, GranteeOf(who.predefined, g.grantee)))
    && PoliciesOk(cat.policies, t, who)
  }

  ghost predicate PoliciesOk(ps: seq<PolicyDef>, t: Target, who: Who) {
    && (forall p | p in ps && p.target == t :: PolicyRolesOk(who, p))
    && forall i, j | 0 <= i < j < |ps| && ps[i].target == t && ps[j].target == t :: ps[i].name != ps[j].name
  }

  /** Users' roles have names of their own, and links and grants are between things that
      exist. */
  ghost predicate Sound(s: State) {
    var who := Who(s.predefined, s.roles.Keys);
    && s.roles.Keys !! s.predefined
    && (forall l | l in s.members :: IsRole(who, l.0) && IsRole(who, l.1))
    && forall t | t in s.tables :: forall g | g in s.tables[t].grants :: Exists(who, g)
  }

  // ---- The loops ----

  lemma {:induction false} RolesAfterHas(roles: map<string, Role>, defs: seq<RoleDef>)
    ensures RolesAfter(roles, defs).Keys == roles.Keys + set r | r in defs :: r.name
  {
    if defs == [] {
    } else {
      var n := |defs| - 1;
      RolesAfterHas(roles, defs[..n]);
      assert defs == defs[..n] + [defs[n]];
    }
  }

  /** Fails exactly when a role of the catalog bears a name the server came with. */
  method ReconcileRoles(db: Server, defs: seq<RoleDef>) returns (o: Outcome)
    requires Distinct(Map(NameOf, defs)) && db.roles.Keys !! db.predefined
    modifies db`roles
    ensures o.Pass? <==> forall r | r in defs :: r.name !in db.predefined
    ensures o.Pass? ==> db.roles == RolesAfter(old(db.roles), defs)
    ensures o.Fail? ==> o.error == DUPLICATE
  {
    var have := db.roles.Keys;
    for i := 0 to |defs|
      invariant db.roles == RolesAfter(old(db.roles), defs[..i])
      invariant forall j | 0 <= j < i :: defs[j].name !in db.predefined
    {
      var r := defs[i];
      RolesAfterHas(old(db.roles), defs[..i]);
      assert defs[..i + 1][..i] == defs[..i];
      if r.name !in have {
        forall j | 0 <= j < i
          ensures defs[j].name != r.name
        {
          assert Map(NameOf, defs)[j] != Map(NameOf, defs)[i];
        }
        o := db.CreateRole(r.name);
        if o.Fail? {
          assert r in defs;
          return;
        }
      }
      o := db.AlterRole(r.name, r.inherit);
      assert o.Pass?;
    }
    assert defs[..|defs|] == defs;
    return Pass;
  }

  /** The memberships among users' roles go one by one; those with a predefined role stay. */
  method RevokeMembers(db: Server)
    requires forall l | l in db.members :: IsRole(db.Known(), l.0) && IsRole(db.Known(), l.1)
    modifies db`members
    ensures db.members == ForeignLinks(db.predefined, old(db.members))
  {
    var rest := set l | l in db.members && !Foreign(db.predefined, l);
    while rest != {}
      invariant rest <= old(db.members.Keys) && db.members.Keys <= old(db.members.Keys)
      invariant forall l | l in db.members :: db.members[l] == old(db.members[l])
      invariant forall l | l in old(db.members) :: l in db.members <==> l in rest || Foreign(db.predefined, l)
      invariant forall l | l in rest :: !Foreign(db.predefined, l)
      decreases |rest|
    {
      var link :| link in rest;
      var o := db.RevokeRole(link);
      rest := rest - {link};
    }
  }

  method ReconcileMembers(db: Server, ms: seq<Membership>) returns (o: Outcome)
    requires forall l | l in db.members :: IsRole(db.Known(), l.0) && IsRole(db.Known(), l.1)
    modifies db`members
    ensures o.Pass? <==> forall m | m in ms :: IsRole(db.Known(), m.grp) && IsRole(db.Known(), m.member)
    ensures o.Pass? ==> db.members == Granted(ForeignLinks(db.predefined, old(db.members)), ms)
  {
    RevokeMembers(db);
    ghost var kept := db.members;
    for i := 0 to |ms|
      invariant db.members == Granted(kept, ms[..i])
      invariant forall j | 0 <= j < i :: IsRole(db.Known(), ms[j].grp) && IsRole(db.Known(), ms[j].member)
    {
      assert ms[..i + 1][..i] == ms[..i];
      o := db.GrantRole((ms[i].grp, ms[i].member), ms[i].admin);
      if o.Fail? {
        assert ms[i] in ms;
        return;
      }
    }
    assert ms[..|ms|] == ms;
    return Pass;
  }

  method SwitchRls(db: Server, t: RlsFlag) returns (o: Outcome)
    modifies db`tables
    ensures o.Pass? <==> t.target in old(db.tables)
    ensures o.Pass? ==>
      db.tables == old(db.tables)[t.target := old(db.tables)[t.target].(enabled := t.enabled, forced := t.enabled)]
  {
    if t.enabled {
      o := db.SetEnabled(t.target, true);
      if o.Fail? {
        return;
      }
      o := db.SetForced(t.target, true);
    } else {
      o := db.SetForced(t.target, false);
      if o.Fail? {
        return;
      }
      o := db.SetEnabled(t.target, false);
    }
  }

  /** What is left of the grants after the revocations so far. */
  function Revoked(grants: set<Grantee>, names: seq<string>): set<Grantee> {
    set g | g in grants && g != Public && !(g.User? && g.name in names)
  }

  lemma RevokedNone(grants: set<Grantee>)
    ensures Revoked(grants, []) == grants - {Public}
  {
  }

  lemma RevokedMore(grants: set<Grantee>, names: seq<string>, name: string)
    ensures Revoked(grants, names + [name]) == Revoked(grants, names) - {User(name)}
  {
  }

  lemma RegroupGrants(a: set<Grantee>, b: set<Grantee>, g: Grantee)
    ensures a + (b + {g}) == a + b + {g} && a + (b + {}) == a + b
  {
  }

  lemma GrantsMore(predefined: set<string>, gs: seq<TableGrant>, g: TableGrant, t: Target)
    ensures GrantsOf(predefined, gs + [g], t) ==
            GrantsOf(predefined, gs, t) + if g.target == t then {GranteeOf(predefined, g.grantee)} else {}
  {
  }

  lemma NoGrants(predefined: set<string>, t: Target)
    ensures GrantsOf(predefined, [], t) == {}
  {
  }

  /** SELECT is taken from PUBLIC and from every user's role. */
  method RevokeGrants(db: Server, t: Target, have: seq<string>)
    requires t in db.tables && forall n :: n in have <==> n in db.roles
    requires forall g | g in db.tables[t].grants :: Exists(db.Known(), g)
    modifies db`tables
    ensures db.tables == old(db.tables)[t := old(db.tables)[t].(grants := Kept(old(db.tables)[t].grants))]
  {
    ghost var was := old(db.tables)[t];
    var o := db.RevokeSelect(t, Public);
    RevokedNone(was.grants);
    assert have[..0] == [];
    for i := 0 to |have|
      invariant db.tables == old(db.tables)[t := was.(grants := Revoked(was.grants, have[..i]))]
    {
      assert have[i] in have && have[..i + 1] == have[..i] + [have[i]];
      RevokedMore(was.grants, have[..i], have[i]);
      o := db.RevokeSelect(t, User(have[i]));
    }
    assert have[..|have|] == have;
    assert Revoked(was.grants, have) == Kept(was.grants);
  }

  lemma GrantsAreAsIn(predefined: set<string>, gs: seq<TableGrant>, t: Target, before: set<Grantee>)
    ensures GrantsAsIn(predefined, gs, t, before, Kept(before) + GrantsOf(predefined, gs, t))
  {
    var after := Kept(before) + GrantsOf(predefined, gs, t);
    forall name | GrantedTo(gs, t, name)
      ensures GranteeOf(predefined, name) in after
    {
      var g := TableGrant(t, name);
      assert g in gs && g.target == t;
    }
    forall g | g in GrantsOf(predefined, gs, t)
      ensures exists name :: GrantedTo(gs, t, name) && g == GranteeOf(predefined, name)
    {
      var e :| e in gs && e.target == t && g == GranteeOf(predefined, e.grantee);
      assert e == TableGrant(t, e.grantee) && GrantedTo(gs, t, e.grantee);
    }
  }

  method ReconcileGrants(db: Server, t: Target, have: seq<string>, gs: seq<TableGrant>) returns (o: Outcome)
    requires t in db.tables && forall n :: n in have <==> n in db.roles
    requires forall g | g in db.tables[t].grants :: Exists(db.Known(), g)
    modifies db`tables
    ensures o.Pass? <==> forall g | g in gs && g.target == t :: Exists(db.Known(), GranteeOf(db.predefined, g.grantee))
    ensures o.Pass? ==>
      db.tables == old(db.tables)[t := old(db.tables)[t].(
                     grants := Kept(old(db.tables)[t].grants) + GrantsOf(db.predefined, gs, t))]
    ensures o.Pass? ==> GrantsAsIn(db.predefined, gs, t, old(db.tables)[t].grants, db.tables[t].grants)
  {
    hide Exists;
    hide GrantsOf;
    hide GrantsAsIn;
    ghost var was := old(db.tables)[t];
    RevokeGrants(db, t, have);
    ghost var kept := Kept(was.grants);
    NoGrants(db.predefined, t);
    assert gs[..0] == [] && kept + {} == kept;
    for i := 0 to |gs|
      invariant db.tables == old(db.tables)[t := was.(grants := kept + GrantsOf(db.predefined, gs[..i], t))]
      invariant forall j | 0 <= j < i && gs[j].target == t ::
                  Exists(db.Known(), GranteeOf(db.predefined, gs[j].grantee))
    {
      GrantsMore(db.predefined, gs[..i], gs[i], t);
      assert gs[..i + 1] == gs[..i] + [gs[i]];
      RegroupGrants(kept, GrantsOf(db.predefined, gs[..i], t), GranteeOf(db.predefined, gs[i].grantee));
      if gs[i].target == t {
        o := db.GrantSelect(t, GranteeOf(db.predefined, gs[i].grantee));
        if o.Fail? {
          assert gs[i] in gs;
          return;
        }
      }
    }
    assert gs[..|gs|] == gs;
    GrantsAreAsIn(db.predefined, gs, t, was.grants);
    return Pass;
  }

  lemma {:induction false} PolicyFrom(predefined: set<string>, ps: seq<PolicyDef>, t: Target, name: string)
    returns (i: nat)
    requires name in PoliciesOf(predefined, ps, t)
    ensures i < |ps| && ps[i].target == t && ps[i].name == name
  {
    var n := |ps| - 1;
    if ps[n].target == t && ps[n].name == name {
      i := n;
    } else {
      i := PolicyFrom(predefined, ps[..n], t, name);
    }
  }

  lemma {:induction false} PolicyInto(predefined: set<string>, ps: seq<PolicyDef>, t: Target, i: nat)
    requires i < |ps| && ps[i].target == t
    ensures ps[i].name in PoliciesOf(predefined, ps, t)
  {
    if i == |ps| - 1 {
    } else {
      PolicyInto(predefined, ps[..|ps| - 1], t, i);
    }
  }

  lemma PoliciesOkMore(ps: seq<PolicyDef>, p: PolicyDef, t: Target, who: Who)
    requires PoliciesOk(ps, t, who)
    ensures PoliciesOk(ps + [p], t, who) <==>
            (p.target == t ==> PolicyRolesOk(who, p) && p.name !in PoliciesOf(who.predefined, ps, t))
  {
    var all := ps + [p];
    assert all[|ps|] == p && all[..|ps|] == ps && p in all;
    if p.target == t {
      if p.name in PoliciesOf(who.predefined, ps, t) {
        var i := PolicyFrom(who.predefined, ps, t, p.name);
        assert all[i].target == t && all[i].name == p.name;
      } else {
        forall i | 0 <= i < |ps| && ps[i].target == t
          ensures ps[i].name != p.name
        {
          PolicyInto(who.predefined, ps, t, i);
        }
      }
    }
    assert forall i | 0 <= i < |ps| :: all[i] == ps[i];
  }

  lemma PoliciesOkPrefix(ps: seq<PolicyDef>, n: nat, t: Target, who: Who)
    requires n <= |ps| && PoliciesOk(ps, t, who)
    ensures PoliciesOk(ps[..n], t, who)
  {
  }

  method DropPolicies(db: Server, t: Target)
    requires t in db.tables
    modifies db`tables
    ensures db.tables == old(db.tables)[t := old(db.tables)[t].(policies := map[])]
  {
    ghost var was := old(db.tables)[t];
    var rest := db.tables[t].policies.Keys;
    while rest != {}
      invariant t in db.tables && rest == db.tables[t].policies.Keys
      invariant db.tables == old(db.tables)[t := was.(policies := db.tables[t].policies)]
      decreases |rest|
    {
      var name :| name in rest;
      var o := db.DropPolicyIfExists(t, name);
      rest := rest - {name};
    }
    assert db.tables[t].policies == map[];
  }

  lemma NoPolicies(t: Target, who: Who)
    ensures PoliciesOf(who.predefined, [], t) == map[] && PoliciesOk([], t, who)
  {
  }

  lemma PoliciesMore(predefined: set<string>, ps: seq<PolicyDef>, p: PolicyDef, t: Target)
    ensures PoliciesOf(predefined, ps + [p], t) ==
            if p.target == t then PoliciesOf(predefined, ps, t)[p.name := PolicyOf(predefined, p)]
            else PoliciesOf(predefined, ps, t)
  {
  }

  lemma PolicyIsMade(predefined: set<string>, p: PolicyDef)
    ensures MadeOf(predefined, p, PolicyOf(predefined, p))
  {
  }

  lemma {:induction false} PoliciesAreMade(ps: seq<PolicyDef>, t: Target, who: Who)
    requires PoliciesOk(ps, t, who)
    ensures PoliciesAsIn(who.predefined, ps, t, PoliciesOf(who.predefined, ps, t))
  {
    hide PolicyOf;
    hide PolicyRolesOk;
    hide MadeOf;
    if ps == [] {
    } else {
      var n := |ps| - 1;
      assert ps == ps[..n] + [ps[n]];
      PoliciesOkPrefix(ps, n, t, who);
      PoliciesAreMade(ps[..n], t, who);
      PolicyIsMade(who.predefined, ps[n]);
      forall p | p in ps[..n] && p.target == t && ps[n].target == t
        ensures p.name != ps[n].name
      {
        var i :| 0 <= i < n && ps[i] == p;
      }
    }
  }

  method ReconcilePolicies(db: Server, t: Target, ps: seq<PolicyDef>) returns (o: Outcome)
    requires t in db.tables
    modifies db`tables
    ensures o.Pass? <==> PoliciesOk(ps, t, db.Known())
    ensures o.Pass? ==>
              db.tables == old(db.tables)[t := old(db.tables)[t].(policies := PoliciesOf(db.predefined, ps, t))]
    ensures o.Pass? ==> PoliciesAsIn(db.predefined, ps, t, db.tables[t].policies)
  {
    hide PolicyRolesOk;
    hide PoliciesOk;
    hide PoliciesOf;
    hide PoliciesAsIn;
    ghost var was := old(db.tables)[t];
    NoPolicies(t, db.Known());
    DropPolicies(db, t);
    for i := 0 to |ps|
      invariant db.tables == old(db.tables)[t := was.(policies := PoliciesOf(db.predefined, ps[..i], t))]
      invariant PoliciesOk(ps[..i], t, db.Known())
    {
      assert ps[..i + 1] == ps[..i] + [ps[i]];
      PoliciesOkMore(ps[..i], ps[i], t, db.Known());
      PoliciesMore(db.predefined, ps[..i], ps[i], t);
      if ps[i].target == t {
        o := db.CreatePolicy(ps[i]);
        if o.Fail? {
          if PoliciesOk(ps, t, db.Known()) {
            PoliciesOkPrefix(ps, i + 1, t, db.Known());
            assert false;
          }
          return;
        }
      }
    }
    assert ps[..|ps|] == ps;
    PoliciesAreMade(ps, t, db.Known());
    return Pass;
  }

  /** One published table. */
  method ReconcileTable(db: Server, cat: Catalog, t: RlsFlag, have: seq<string>) returns (o: Outcome)
    requires forall n :: n in have <==> n in db.roles
    requires t.target in db.tables ==> forall g | g in db.tables[t.target].grants :: Exists(db.Known(), g)
    modifies db`tables
    ensures o.Pass? <==> t.target in old(db.tables) && TableConsistent(cat, t.target, db.Known())
    ensures o.Pass? ==>
      db.tables == old(db.tables)[t.target := TableAfter(db.predefined, cat, t, old(db.tables)[t.target])]
  {
    hide PolicyRolesOk;
    hide PoliciesOf;
    hide Exists;
    o := SwitchRls(db, t);
    if o.Fail? {
      return;
    }
    o := ReconcileGrants(db, t.target, have, cat.grants);
    if o.Fail? {
      return;
    }
    o := ReconcilePolicies(db, t.target, cat.policies);
  }

  /** Every role there is after the first step, in some order. */
  method Names(names: set<string>) returns (have: seq<string>)
    ensures forall n :: n in have <==> n in names
  {
    have := [];
    var rest := names;
    while rest != {}
      invariant rest <= names && forall n :: n in have <==> n in names && n !in rest
      decreases |rest|
    {
      var n :| n in rest;
      have := have + [n];
      rest := rest - {n};
    }
  }

  // ---- Table by table ----

  ghost predicate TablesOk(cat: Catalog, n: nat, before: map<Target, TableSec>, who: Who)
    requires n <= |cat.tables|
  {
    forall i | 0 <= i < n :: cat.tables[i].target in before && TableConsistent(cat, cat.tables[i].target, who)
  }

  lemma AllTablesOk(cat: Catalog, before: map<Target, TableSec>, who: Who)
    ensures TablesOk(cat, |cat.tables|, before, who) <==>
            forall t | t in cat.tables :: t.target in before && TableConsistent(cat, t.target, who)
  {
  }

  lemma NoTables(cat: Catalog, before: map<Target, TableSec>, who: Who)
    ensures TablesAfter(who.predefined, cat, 0, before, before) && TablesOk(cat, 0, before, who)
  {
  }

  lemma TablesOkMore(cat: Catalog, i: nat, before: map<Target, TableSec>, who: Who)
    requires i < |cat.tables| && TablesOk(cat, i, before, who)
    ensures TablesOk(cat, i + 1, before, who) <==>
            cat.tables[i].target in before && TableConsistent(cat, cat.tables[i].target, who)
    ensures TablesOk(cat, |cat.tables|, before, who) ==> TablesOk(cat, i + 1, before, who)
  {
  }

  /** A table that none of the first is named for is as it was before, and is done like
      them. */
  lemma NextTable(predefined: set<string>, cat: Catalog, i: nat,
      before: map<Target, TableSec>, tables: map<Target, TableSec>)
    requires UniqueKeys(cat) && i < |cat.tables| && TablesAfter(predefined, cat, i, before, tables)
    ensures var t := cat.tables[i];
            && (t.target in before <==> t.target in tables)
            && (t.target in tables ==>
                  && tables[t.target] == before[t.target]
                  && TablesAfter(predefined, cat, i + 1, before,
                                 tables[t.target := TableAfter(predefined, cat, t, tables[t.target])]))
  {
    hide TableAfter;
    var t, keys := cat.tables[i], Map(TargetOf, cat.tables);
    forall j | 0 <= j < i
      ensures cat.tables[j].target != t.target
    {
      assert keys[j] != keys[i];
    }
  }

  lemma GrantsStayKnown(cat: Catalog, s: State, t: Target)
    requires Sound(s) && t in s.tables
    ensures forall g | g in s.tables[t].grants :: Exists(WhoAfter(cat, s), g)
  {
    RolesAfterHas(s.roles, cat.roles);
    forall g | g in s.tables[t].grants
      ensures Exists(WhoAfter(cat, s), g)
    {
      assert Exists(Who(s.predefined, s.roles.Keys), g);
    }
  }

  /** It succeeds exactly on a catalog that speaks of what there is and gives no role a name
      the server came with, and then everything is as the catalog says. */
  method ReconcileSecurity(db: Server, cat: Catalog) returns (o: Outcome)
    requires UniqueKeys(cat) && Sound(db.Now())
    modifies db
    ensures o.Pass? <==> Consistent(cat, old(db.Now()))
    ensures o.Pass? ==> Reconciled(cat, old(db.Now()), db.Now())
    ensures (exists r :: r in cat.roles && r.name in db.predefined) ==>
      o == Fail(DUPLICATE) && db.members == old(db.members) && db.tables == old(db.tables)
  {
    hide TableConsistent;
    hide TableAfter;
    hide TablesAfter;
    hide TablesOk;
    ghost var before := db.Now();
    ghost var kept := ForeignLinks(db.predefined, db.members);
    RolesAfterHas(db.roles, cat.roles);
    o := ReconcileRoles(db, cat.roles);
    if o.Fail? {
      return;
    }
    o := ReconcileMembers(db, cat.memberships);
    if o.Fail? {
      return;
    }
    var have := Names(db.roles.Keys);
    NoTables(cat, before.tables, db.Known());
    for i := 0 to |cat.tables|
      invariant db.roles == RolesAfter(before.roles, cat.roles) && db.members == Granted(kept, cat.memberships)
      invariant TablesAfter(db.predefined, cat, i, before.tables, db.tables)
      invariant TablesOk(cat, i, before.tables, db.Known())
    {
      NextTable(db.predefined, cat, i, before.tables, db.tables);
      if cat.tables[i].target in before.tables {
        GrantsStayKnown(cat, before, cat.tables[i].target);
      }
      TablesOkMore(cat, i, before.tables, db.Known());
      o := ReconcileTable(db, cat, cat.tables[i], have);
      if o.Fail? {
        return;
      }
    }
    AllTablesOk(cat, before.tables, db.Known());
    return Pass;
  }

  /** A catalog role that has the name of the local owner: the owner is not among the roles
      found, so CREATE ROLE is sent for it and refused, and nothing after it is done. */
  lemma OwnersNameIsRefused(cat: Catalog, s: State)
    requires RoleDef("postgres", true) in cat.roles && "postgres" in s.predefined
    ensures !Consistent(cat, s)
  {
  }

  /** A policy for a role that the server came with is made, for that role. */
  lemma PolicyForPredefinedIsMade(cat: Catalog, s: State, p: PolicyDef, name: string)
    requires p.roles == [name] && name in s.predefined && name != "public"
    ensures PolicyRolesOk(WhoAfter(cat, s), p) && PolicyOf(s.predefined, p).to == {Predefined(name)}
  {
    assert name in p.roles && forall r | r in p.roles :: r == name;
  }

  // ---- What reconciling is for ----

  /** The catalog's part of the state: what the catalog has a say in. */
  ghost predicate SamePart(cat: Catalog, a: State, b: State) {
    && UserLinks(a.predefined, a.members) == UserLinks(b.predefined, b.members)
    && (forall r | r in cat.roles :: r.name in a.roles && r.name in b.roles && a.roles[r.name] == b.roles[r.name])
    && forall t | t in cat.tables :: t.target in a.tables && t.target in b.tables &&
         SameTable(a.tables[t.target], b.tables[t.target])
  }

  function UserLinks(predefined: set<string>, members: map<Link, bool>): map<Link, bool> {
    map l | l in members && !Foreign(predefined, l) :: members[l]
  }

  /** Equal but for grants to predefined roles. */
  ghost predicate SameTable(a: TableSec, b: TableSec) {
    && a.enabled == b.enabled && a.forced == b.forced && a.policies == b.policies
    && a.grants - Kept(a.grants) == b.grants - Kept(b.grants)
  }

  lemma {:induction false} RoleSet(roles: map<string, Role>, defs: seq<RoleDef>, i: nat)
    requires Distinct(Map(NameOf, defs)) && i < |defs|
    ensures defs[i].name in RolesAfter(roles, defs)
    ensures RolesAfter(roles, defs)[defs[i].name] == Role(false, false, defs[i].inherit)
  {
    var n, names := |defs| - 1, Map(NameOf, defs);
    if i == n {
    } else {
      assert names[i] != names[n];
      forall a, b | 0 <= a < b < n
        ensures Map(NameOf, defs[..n])[a] != Map(NameOf, defs[..n])[b]
      {
        assert names[a] != names[b];
      }
      RoleSet(roles, defs[..n], i);
    }
  }

  predicate Named(ms: seq<Membership>, link: Link) {
    exists i :: 0 <= i < |ms| && (ms[i].grp, ms[i].member) == link
  }

  predicate WithAdmin(ms: seq<Membership>, link: Link) {
    exists i :: 0 <= i < |ms| && (ms[i].grp, ms[i].member) == link && ms[i].admin
  }

  /** After the grants a link is there if it was or the catalog names it, and has the admin
      option if it had or the catalog gives it. */
  lemma {:induction false} GrantedAt(members: map<Link, bool>, ms: seq<Membership>, link: Link)
    ensures link in Granted(members, ms) <==> link in members || Named(ms, link)
    ensures link in Granted(members, ms) ==>
      (Granted(members, ms)[link] <==> (link in members && members[link]) || WithAdmin(ms, link))
  {
    if ms == [] {
    } else {
      var n := |ms| - 1;
      GrantedAt(members, ms[..n], link);
      NamesMore(ms, link);
    }
  }

  lemma NamesMore(ms: seq<Membership>, link: Link)
    requires ms != []
    ensures var n := |ms| - 1;
            && (Named(ms, link) <==> Named(ms[..n], link) || LinkOf(ms[n]) == link)
            && (WithAdmin(ms, link) <==> WithAdmin(ms[..n], link) || (LinkOf(ms[n]) == link && ms[n].admin))
  {
    var n := |ms| - 1;
    assert forall i | 0 <= i < n :: ms[..n][i] == ms[i];
    if i :| 0 <= i < |ms| && LinkOf(ms[i]) == link && i < n {
      assert LinkOf(ms[..n][i]) == link;
    }
    if i :| 0 <= i < |ms| && LinkOf(ms[i]) == link && ms[i].admin && i < n {
      assert LinkOf(ms[..n][i]) == link && ms[..n][i].admin;
    }
  }

  /** After a success every catalog role is without login and without the right to bypass row
      security, and inherits as the catalog says; row security of a published table is forced
      exactly when it is enabled, whatever the catalog's own flag says; its grants and policies
      are those of the catalog, entry by entry. */
  lemma ReconciledRolesAndTables(cat: Catalog, before: State, after: State, r: nat, t: nat)
    requires UniqueKeys(cat) && Consistent(cat, before) && Reconciled(cat, before, after)
    requires r < |cat.roles| && t < |cat.tables|
    ensures cat.roles[r].name in after.roles
    ensures after.roles[cat.roles[r].name] == Role(false, false, cat.roles[r].inherit)
    ensures var target := cat.tables[t].target;
            && target in before.tables && target in after.tables
            && after.tables[target].enabled == after.tables[target].forced == cat.tables[t].enabled
            && GrantsAsIn(before.predefined, cat.grants, target,
                          before.tables[target].grants, after.tables[target].grants)
            && PoliciesAsIn(before.predefined, cat.policies, target, after.tables[target].policies)
  {
    hide PoliciesOf;
    hide PoliciesOk;
    hide Granted;
    RoleSet(before.roles, cat.roles, r);
    var target := cat.tables[t].target;
    assert cat.tables[t] in cat.tables && TableConsistent(cat, target, WhoAfter(cat, before));
    PoliciesAreMade(cat.policies, target, WhoAfter(cat, before));
    GrantsAreAsIn(before.predefined, cat.grants, target, before.tables[target].grants);
  }

  lemma {:induction false} OtherRoleStays(roles: map<string, Role>, defs: seq<RoleDef>, name: string)
    requires forall r | r in defs :: r.name != name
    ensures name in RolesAfter(roles, defs) <==> name in roles
    ensures name in roles ==> RolesAfter(roles, defs)[name] == roles[name]
  {
    if defs == [] {
    } else {
      OtherRoleStays(roles, defs[..|defs| - 1], name);
    }
  }

  /** Roles and tables that the catalog does not name stay as they were. */
  lemma OthersUntouched(cat: Catalog, before: State, after: State)
    requires Reconciled(cat, before, after)
    ensures forall name | (forall r | r in cat.roles :: r.name != name) ::
              (name in after.roles <==> name in before.roles) &&
              (name in before.roles ==> after.roles[name] == before.roles[name])
    ensures after.tables.Keys == before.tables.Keys
    ensures forall t | t in before.tables && (forall f | f in cat.tables :: f.target != t) ::
              after.tables[t] == before.tables[t]
  {
    hide TableAfter;
    hide Granted;
    forall name | forall r | r in cat.roles :: r.name != name
      ensures name in after.roles <==> name in before.roles
      ensures name in before.roles ==> after.roles[name] == before.roles[name]
    {
      OtherRoleStays(before.roles, cat.roles, name);
    }
  }

  /** A membership is there exactly when the catalog names it, or it was there and involves a
      predefined role; it has the admin option exactly when the catalog gives it, or it had it
      and involves a predefined role. */
  lemma ReconciledMembers(cat: Catalog, before: State, after: State, link: Link)
    requires Reconciled(cat, before, after)
    ensures var kept := link in before.members && (link.0 in before.predefined || link.1 in before.predefined);
            && (link in after.members <==> kept || Named(cat.memberships, link))
            && (link in after.members ==>
                  (after.members[link] <==> (kept && before.members[link]) || WithAdmin(cat.memberships, link)))
  {
    GrantedAt(ForeignLinks(before.predefined, before.members), cat.memberships, link);
  }

  lemma SameUserLinks(cat: Catalog, b1: State, a1: State, b2: State, a2: State)
    requires Reconciled(cat, b1, a1) && Reconciled(cat, b2, a2) && b1.predefined == b2.predefined
    ensures UserLinks(a1.predefined, a1.members) == UserLinks(a2.predefined, a2.members)
  {
    hide Granted;
    hide TablesAfter;
    forall l | !Foreign(b1.predefined, l)
      ensures l in a1.members <==> l in a2.members
      ensures l in a1.members ==> a1.members[l] == a2.members[l]
    {
      ReconciledMembers(cat, b1, a1, l);
      ReconciledMembers(cat, b2, a2, l);
    }
  }

  /** What a server had before makes no difference. */
  lemma IndependentOfBefore(cat: Catalog, b1: State, a1: State, b2: State, a2: State)
    requires UniqueKeys(cat) && b1.predefined == b2.predefined
    requires Reconciled(cat, b1, a1) && Reconciled(cat, b2, a2)
    ensures SamePart(cat, a1, a2)
  {
    hide PoliciesOf;
    hide Granted;
    SameUserLinks(cat, b1, a1, b2, a2);
    forall r | r in cat.roles
      ensures r.name in a1.roles && r.name in a2.roles && a1.roles[r.name] == a2.roles[r.name]
    {
      var i :| 0 <= i < |cat.roles| && cat.roles[i] == r;
      RoleSet(b1.roles, cat.roles, i);
      RoleSet(b2.roles, cat.roles, i);
    }
    forall t | t in cat.tables
      ensures t.target in a1.tables && t.target in a2.tables && SameTable(a1.tables[t.target], a2.tables[t.target])
    {
      var i :| 0 <= i < |cat.tables| && cat.tables[i] == t;
      OnlyCatalogGrants(b1.predefined, cat, t, b1.tables[t.target], b2.tables[t.target]);
    }
  }

  lemma OnlyCatalogGrants(predefined: set<string>, cat: Catalog, t: RlsFlag, b1: TableSec, b2: TableSec)
    ensures SameTable(TableAfter(predefined, cat, t, b1), TableAfter(predefined, cat, t, b2))
    ensures TableAfter(predefined, cat, t, TableAfter(predefined, cat, t, b1)) == TableAfter(predefined, cat, t, b1)
  {
    hide PoliciesOf;
  }

  lemma {:induction false} RolesStay(roles: map<string, Role>, all: seq<RoleDef>, n: nat)
    requires Distinct(Map(NameOf, all)) && n <= |all|
    ensures RolesAfter(RolesAfter(roles, all), all[..n]) == RolesAfter(roles, all)
  {
    if n == 0 {
    } else {
      RolesStay(roles, all, n - 1);
      RoleSet(roles, all, n - 1);
      assert all[..n][..n - 1] == all[..n - 1];
      var after, r := RolesAfter(roles, all), all[n - 1];
      assert after[r.name := after[r.name]] == after;
    }
  }

  lemma LinksStay(predefined: set<string>, members: map<Link, bool>, ms: seq<Membership>)
    ensures var once := Granted(ForeignLinks(predefined, members), ms);
            Granted(ForeignLinks(predefined, once), ms) == once
  {
    var kept := ForeignLinks(predefined, members);
    var once := Granted(kept, ms);
    var again := ForeignLinks(predefined, once);
    forall l
      ensures l in Granted(again, ms) <==> l in once
      ensures l in once ==> Granted(again, ms)[l] == once[l]
    {
      GrantedAt(kept, ms, l);
      GrantedAt(again, ms, l);
    }
  }

  lemma SameWho(cat: Catalog, before: State, once: State)
    requires Reconciled(cat, before, once)
    ensures WhoAfter(cat, once) == WhoAfter(cat, before) == Who(once.predefined, once.roles.Keys)
    ensures before.roles.Keys <= once.roles.Keys
  {
    RolesAfterHas(before.roles, cat.roles);
    RolesAfterHas(once.roles, cat.roles);
  }

  lemma MembersStaySound(cat: Catalog, before: State, once: State)
    requires Sound(before) && Consistent(cat, before) && Reconciled(cat, before, once)
    ensures forall l | l in once.members :: IsRole(WhoAfter(cat, before), l.0) && IsRole(WhoAfter(cat, before), l.1)
  {
    hide Granted;
    hide TableConsistent;
    hide TablesAfter;
    SameWho(cat, before, once);
    forall l | l in once.members
      ensures IsRole(WhoAfter(cat, before), l.0) && IsRole(WhoAfter(cat, before), l.1)
    {
      GrantedAt(ForeignLinks(before.predefined, before.members), cat.memberships, l);
      if Named(cat.memberships, l) {
        var i :| 0 <= i < |cat.memberships| && LinkOf(cat.memberships[i]) == l;
        assert cat.memberships[i] in cat.memberships;
      }
    }
  }

  lemma GrantsStaySound(cat: Catalog, before: State, once: State, t: Target)
    requires Sound(before) && Consistent(cat, before) && Reconciled(cat, before, once) && t in once.tables
    ensures forall g | g in once.tables[t].grants :: Exists(WhoAfter(cat, before), g)
  {
    hide Granted;
    hide PoliciesOf;
    hide PoliciesOk;
    SameWho(cat, before, once);
    if i :| 0 <= i < |cat.tables| && cat.tables[i].target == t {
      assert cat.tables[i] in cat.tables && TableConsistent(cat, t, WhoAfter(cat, before));
    }
  }

  lemma NamesApart(cat: Catalog, before: State, once: State)
    requires Sound(before) && Consistent(cat, before) && Reconciled(cat, before, once)
    ensures once.roles.Keys !! once.predefined
  {
    hide Granted;
    hide TablesAfter;
    hide TableConsistent;
    RolesAfterHas(before.roles, cat.roles);
  }

  /** The catalog speaks of what there is after a success as it did before. */
  lemma StaysConsistent(cat: Catalog, before: State, once: State)
    requires Sound(before) && Consistent(cat, before) && Reconciled(cat, before, once)
    ensures Sound(once) && Consistent(cat, once)
  {
    hide Granted;
    hide TableConsistent;
    hide TableAfter;
    hide IsRole;
    SameWho(cat, before, once);
    MembersStaySound(cat, before, once);
    NamesApart(cat, before, once);
    forall t | t in once.tables
      ensures forall g | g in once.tables[t].grants :: Exists(WhoAfter(cat, before), g)
    {
      GrantsStaySound(cat, before, once, t);
    }
  }

  lemma TablesStay(cat: Catalog, before: State, once: State)
    requires UniqueKeys(cat) && Reconciled(cat, before, once)
    ensures TablesAfter(once.predefined, cat, |cat.tables|, once.tables, once.tables)
  {
    hide PoliciesOf;
    hide Granted;
    forall i | 0 <= i < |cat.tables|
      ensures var t := cat.tables[i].target;
              t in once.tables && once.tables[t] == TableAfter(once.predefined, cat, cat.tables[i], once.tables[t])
    {
      var t := cat.tables[i].target;
      OnlyCatalogGrants(before.predefined, cat, cat.tables[i], before.tables[t], before.tables[t]);
    }
  }

  lemma OneResult(cat: Catalog, before: State, a: State, b: State)
    requires Reconciled(cat, before, a) && Reconciled(cat, before, b)
    ensures a == b
  {
    hide Granted;
    hide TableAfter;
    forall t | t in a.tables
      ensures t in b.tables && a.tables[t] == b.tables[t]
    {
      if i :| 0 <= i < |cat.tables| && cat.tables[i].target == t {
      }
    }
    assert a.tables == b.tables;
  }

  /** After a success the catalog can be reconciled again, and that changes nothing. */
  lemma Idempotent(cat: Catalog, before: State, once: State)
    requires UniqueKeys(cat) && Sound(before) && Consistent(cat, before) && Reconciled(cat, before, once)
    ensures Sound(once) && Consistent(cat, once)
    ensures forall twice :: Reconciled(cat, once, twice) <==> twice == once
  {
    hide Sound;
    hide Consistent;
    hide Granted;
    hide TablesAfter;
    StaysConsistent(cat, before, once);
    RolesStay(before.roles, cat.roles, |cat.roles|);
    assert cat.roles[..|cat.roles|] == cat.roles;
    LinksStay(before.predefined, before.members, cat.memberships);
    TablesStay(cat, before, once);
    forall twice | Reconciled(cat, once, twice)
      ensures twice == once
    {
      OneResult(cat, once, twice, once);
    }
  }
}

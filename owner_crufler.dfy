/**
 * The ownership/ACL handler (owner-crufler.js): permission-flag
 * normalisation, the query rewrite that confines a query to what the actor
 * may see, the allowed-collection test and the read/new/change rules for the
 * actor's own type, the `acl` type and every other type.
 *
 * The ACL model's static helpers, the ACL documents' `isAllowed` and the
 * lookups of records in other collections are not part of this model: they
 * are the fields of an `AclOracle`, fixed for the duration of a request.
 */
module OwnerCrufler {
  import opened Values
  import opened Query
  import Base

  /** An ACL document: its own id and the `{type, id}` of the resource it governs. */
  datatype AclRecord = AclRecord(id: Oid, resource: Ref)

  datatype AclOracle = AclOracle(
    isOwner: (Option<map<string, Value>>, Actor) -> bool,                 // Acl.isOwner(record, actor)
    isMember: (Option<map<string, Value>>, string, Actor) -> bool,        // Acl.isMember(record, field, actor)
    isAllowed: (AclRecord, Actor, string) -> bool,                        // acl.isAllowed(actor, op, '')
    findById: Oid -> Option<AclRecord>,                                   // Acl.findById(id)
    aclByResource: (Option<string>, Option<string>) -> Option<AclRecord>, // Acl.aclByResource(id, type)
    aclResourcesByActors: (seq<SubActor>, Option<string>, string) -> seq<AclRecord>,
    findResource: (string, Option<string>) -> Option<Doc>                 // collections[type].findById(id)
  )

  /**
   * What an ownership handler is constructed with: the actor, its normalised
   * permissions, each recognised collection's `permissions()` result (`None`
   * when the collection has no resolver) and the ACL helpers.
   */
  datatype Config = Config(actor: Actor, permissions: Permissions, collections: map<string, Option<RawPermissions>>, acl: AclOracle)

  // Permission normalisation (the constructor)

  /** `{read, new, change}` as booleans; anything but an object gives all false. */
  function Normalize(raw: RawPermissions): (p: Permissions)
    ensures !raw.PermissionFields? ==> !p.read && !p.create && !p.change
    ensures raw.PermissionFields? ==>
      && (p.read <==> TruthyField(raw.read))
      && (p.create <==> TruthyField(raw.create))
      && (p.change <==> TruthyField(raw.change))
  {
    match raw
    case PermissionFields(r, n, c) => Permissions(TruthyField(r), TruthyField(n), TruthyField(c))
    case _ => Permissions(false, false, false)
  }

  /** A permission set written back as an object. */
  function AsRaw(p: Permissions): RawPermissions
  {
    PermissionFields(Some(Bool(p.read)), Some(Bool(p.create)), Some(Bool(p.change)))
  }

  /** Normalising is a projection: a normalised set normalises to itself. */
  lemma NormalizeIdempotent(raw: RawPermissions)
    ensures Normalize(AsRaw(Normalize(raw))) == Normalize(raw)
  {
  }

  /** The handler's state as the constructor leaves it. */
  function NewConfig(actor: Actor, raw: RawPermissions, collections: map<string, Option<RawPermissions>>, acl: AclOracle): (c: Config)
    ensures c.permissions == Normalize(raw)
    ensures c.actor == actor && c.collections == collections && c.acl == acl
  {
    Config(actor, Normalize(raw), collections, acl)
  }

  // Query filtering

  /** Records whose `field` holds a reference to this sub-actor. */
  function RelationFilter(field: string, a: SubActor): Expr
  {
    And([Equals([field, "id"], Str(a.id)), Equals([field, "type"], Str(a.ty))])
  }

  /** Sub-actors that are matched as owners even without the `owner` marker. */
  predicate OwnsByDefault(a: SubActor)
  {
    a.owner || a.ty == "user" || a.ty == "identity" || a.ty == "device"
  }

  /** The filters one sub-actor contributes, in the order they are pushed. */
  function SubActorFilters(a: SubActor): seq<Expr>
  {
    (if OwnsByDefault(a) then [RelationFilter("owner", a)] else [])
    + (if a.admins then [RelationFilter("admins", a)] else [])
    + (if a.members then [RelationFilter("members", a)] else [])
    + (if a.devices then [RelationFilter("devices", a)] else [])
  }

  function ActorFilters(actors: seq<SubActor>): seq<Expr>
  {
    if actors == [] then []
    else ActorFilters(actors[..|actors| - 1]) + SubActorFilters(actors[|actors| - 1])
  }

  /** One `_id` equality per ACL resource that grants the actors `read`. */
  function AclFilters(resources: seq<AclRecord>): (fs: seq<Expr>)
    ensures |fs| == |resources|
    ensures forall i | 0 <= i < |resources| :: fs[i] == Equals(["_id"], Str(resources[i].resource.id))
  {
    seq(|resources|, i requires 0 <= i < |resources| => Equals(["_id"], Str(resources[i].resource.id)))
  }

  /** The resource type passed to the ACL lookup: the handler's type when it is truthy. */
  function ResourceType(ty: string): Option<string>
  {
    if ty != "" then Some(ty) else None
  }

  /** Every filter the handler builds for an actor that represents `actors`. */
  function Filters(ty: string, c: Config): seq<Expr>
  {
    if c.actor.actors.None? then []
    else
      var actors := c.actor.actors.value;
      ActorFilters(actors) + AclFilters(c.acl.aclResourcesByActors(actors, ResourceType(ty), "read"))
  }

  /** Whether the handler leaves queries unfiltered: ACL records and the actor's own type. */
  predicate Unfiltered(ty: string, c: Config)
  {
    ty == "acl" || ty == c.actor.ty
  }

  /** `filterQuerySpec(spec)` as a function of its inputs. */
  function FilteredSpec(ty: string, c: Config, spec: QuerySpec): (r: QuerySpec)
    ensures r.ids == spec.ids && r.limit == spec.limit
  {
    if Unfiltered(ty, c) then spec
    else
      var filters := Filters(ty, c);
      if |filters| == 0 then spec.(owner := Some(Base.ActorRef(c.actor)))
      else if |spec.matches| == 0 then spec.(matches := [Or(filters)])
      else spec.(matches := [And([Or(filters)] + spec.matches)])
  }

  /** One round of that loop: a sub-actor's relation filters, in the order they are pushed. */
  method PushSubActorFilters(fs: seq<Expr>, a: SubActor) returns (r: seq<Expr>)
    ensures r == fs + SubActorFilters(a)
    ensures |fs| <= |r| <= |fs| + 4 && r[..|fs|] == fs
    ensures RelationFilter("owner", a) in r[|fs|..] <==> OwnsByDefault(a)
    ensures RelationFilter("admins", a) in r[|fs|..] <==> a.admins
    ensures RelationFilter("members", a) in r[|fs|..] <==> a.members
    ensures RelationFilter("devices", a) in r[|fs|..] <==> a.devices
  {
    var owner := if OwnsByDefault(a) then [RelationFilter("owner", a)] else [];
    var admins := if a.admins then [RelationFilter("admins", a)] else [];
    var members := if a.members then [RelationFilter("members", a)] else [];
    var devices := if a.devices then [RelationFilter("devices", a)] else [];
    assert SubActorFilters(a) == owner + admins + members + devices;
    r := fs + owner + admins + members + devices;
    ghost var pushed := SubActorFilters(a);
    assert r == fs + pushed;
    assert r[..|fs|] == fs && r[|fs|..] == pushed;
    SubActorFiltersHave(a);
  }

  /** A relation filter names its field first, so filters on different fields differ. */
  lemma RelationFilterField(field: string, a: SubActor)
    ensures RelationFilter(field, a).And? && RelationFilter(field, a).es[0].path[0] == field
  {
  }

  /** A sub-actor contributes each relation filter exactly when that relation applies to it. */
  lemma SubActorFiltersHave(a: SubActor)
    ensures |SubActorFilters(a)| <= 4
    ensures RelationFilter("owner", a) in SubActorFilters(a) <==> OwnsByDefault(a)
    ensures RelationFilter("admins", a) in SubActorFilters(a) <==> a.admins
    ensures RelationFilter("members", a) in SubActorFilters(a) <==> a.members
    ensures RelationFilter("devices", a) in SubActorFilters(a) <==> a.devices
  {
    RelationFilterField("owner", a);
    RelationFilterField("admins", a);
    RelationFilterField("members", a);
    RelationFilterField("devices", a);
  }

  /** The first loop of `filterQuerySpec`: the relation filters of each sub-actor in turn. */
  method CollectActorFilters(actors: seq<SubActor>) returns (fs: seq<Expr>)
    ensures fs == ActorFilters(actors)
  {
    fs := [];
    var i := 0;
    while i < |actors|
      invariant 0 <= i <= |actors|
      invariant fs == ActorFilters(actors[..i])
    {
      // The self-id shortcut tests `spec.length == 1`; a specification
      // object has no `length`, so that filter is never pushed.
      fs := PushSubActorFilters(fs, actors[i]);
      assert actors[..i + 1][..i] == actors[..i];
      i := i + 1;
    }
    assert actors[..|actors|] == actors;
  }

  /** `filterQuerySpec(spec)`: builds the filter list sub-actor by sub-actor, then rewrites the spec. */
  method FilterQuerySpec(ty: string, c: Config, spec: QuerySpec) returns (r: QuerySpec)
    ensures r == FilteredSpec(ty, c, spec)
  {
    if ty == "acl" {
      return spec;
    } else if ty == c.actor.ty {
      return spec;
    }
    var filters: Option<seq<Expr>> := None;
    if c.actor.actors.Some? {
      var actors := c.actor.actors.value;
      var fs := CollectActorFilters(actors);
      var resources := c.acl.aclResourcesByActors(actors, ResourceType(ty), "read");
      var j := 0;
      while j < |resources|
        invariant 0 <= j <= |resources|
        invariant fs == ActorFilters(actors) + AclFilters(resources[..j])
      {
        fs := fs + [Equals(["_id"], Str(resources[j].resource.id))];
        j := j + 1;
      }
      assert resources[..|resources|] == resources;
      filters := Some(fs);
    }
    if filters.None? || |filters.value| < 1 {
      r := spec.(owner := Some(Base.ActorRef(c.actor)));
    } else if |spec.matches| < 1 {
      r := spec.(matches := [Or(filters.value)]);
    } else {
      r := spec.(matches := [And([Or(filters.value)] + spec.matches)]);
    }
  }

  /**
   * With filters, the rewritten query admits exactly the records that the
   * caller's query admits AND one of the filters admits: the caller's
   * predicates are intersected, never dropped.
   */
  lemma {:induction false} FilteredSpecIntersects(ty: string, c: Config, spec: QuerySpec, d: Doc)
    requires !Unfiltered(ty, c) && |Filters(ty, c)| > 0
    ensures Matches(FilteredSpec(ty, c, spec), d) <==> Matches(spec, d) && AnyHolds(Filters(ty, c), d)
  {
    var filters := Filters(ty, c);
    var r := FilteredSpec(ty, c, spec);
    if |spec.matches| == 0 {
      assert r.matches == [Or(filters)];
      AllHoldSingle(Or(filters), d);
    } else {
      var es := [Or(filters)] + spec.matches;
      assert r.matches == [And(es)];
      AllHoldSingle(And(es), d);
      assert Holds(And(es), d) <==> AllHold(es, d);
      AllHoldConcat([Or(filters)], spec.matches, d);
      AllHoldSingle(Or(filters), d);
    }
  }

  /**
   * Without filters (no `actor.actors`, or nothing matched), the rewritten
   * query keeps the caller's ids and match trees and admits only records the
   * actor owns; a caller-given `owner` is replaced by the actor.
   */
  lemma FilteredSpecFallsBackToOwner(ty: string, c: Config, spec: QuerySpec, d: Doc)
    requires !Unfiltered(ty, c) && |Filters(ty, c)| == 0
    ensures Matches(FilteredSpec(ty, c, spec), d) <==> MatchesIgnoringOwner(spec, d) && OwnerIs(d, Base.ActorRef(c.actor))
  {
  }

  /** ACL queries and queries on the actor's own type pass through unchanged. */
  lemma FilteredSpecUnfiltered(ty: string, c: Config, spec: QuerySpec)
    requires Unfiltered(ty, c)
    ensures FilteredSpec(ty, c, spec) == spec
  {
  }

  /** Every record the rewritten query admits is one the actor is related to. */
  lemma FilteredSpecOnlyAdmitsRelated(ty: string, c: Config, spec: QuerySpec, d: Doc)
    requires !Unfiltered(ty, c)
    requires Matches(FilteredSpec(ty, c, spec), d)
    ensures AnyHolds(Filters(ty, c), d) || OwnerIs(d, Base.ActorRef(c.actor))
  {
    if |Filters(ty, c)| > 0 {
      FilteredSpecIntersects(ty, c, spec, d);
    }
  }

  /**
   * The rewrite never widens a query: whatever it admits satisfies the
   * caller's ids and match trees (only a caller-given `owner` may be replaced).
   */
  lemma FilteredSpecNarrows(ty: string, c: Config, spec: QuerySpec, d: Doc)
    ensures Matches(FilteredSpec(ty, c, spec), d) ==> MatchesIgnoringOwner(spec, d)
  {
    if !Unfiltered(ty, c) && |Filters(ty, c)| > 0 {
      FilteredSpecIntersects(ty, c, spec, d);
    }
  }

  /** Each sub-actor's relation filters and each granting ACL resource end up in the filter list. */
  lemma {:induction false} ActorFiltersContain(actors: seq<SubActor>, k: nat)
    requires k < |actors|
    ensures forall e | e in SubActorFilters(actors[k]) :: e in ActorFilters(actors)
  {
    var n := |actors|;
    var pre := ActorFilters(actors[..n - 1]);
    assert ActorFilters(actors) == pre + SubActorFilters(actors[n - 1]);
    if k < n - 1 {
      assert actors[..n - 1][k] == actors[k];
      ActorFiltersContain(actors[..n - 1], k);
      assert forall e | e in pre :: e in ActorFilters(actors);
    }
  }

  /** A sub-actor marked as owner, or of a user, identity or device type, yields an owner filter. */
  lemma OwnerFilterPushed(ty: string, c: Config, k: nat)
    requires c.actor.actors.Some? && k < |c.actor.actors.value|
    requires OwnsByDefault(c.actor.actors.value[k])
    ensures RelationFilter("owner", c.actor.actors.value[k]) in Filters(ty, c)
  {
    ActorFiltersContain(c.actor.actors.value, k);
  }

  // Capability checks

  /** `isAllowedCollection(name)`: never `acl`; otherwise a recognised collection. */
  function IsAllowedCollection(collections: map<string, Option<RawPermissions>>, name: Option<string>): (r: bool)
    ensures name == Some("acl") ==> !r
    ensures name.None? ==> !r
    ensures name.Some? && name.value != "acl" ==> (r <==> name.value in collections)
  {
    name.Some? && name.value != "acl" && name.value in collections
  }

  /** Calling a collection's `permissions()` resolver; a collection without one throws. */
  function Resolve(c: Config, ty: string): Result<RawPermissions, Error>
    requires ty in c.collections
  {
    if c.collections[ty].Some? then Ok(c.collections[ty].value) else Err(TypeError)
  }

  datatype Flag = ReadFlag | ChangeFlag

  /** Reading a flag of a resolver's raw result, which throws on null. */
  function FlagOf(raw: RawPermissions, f: Flag): Result<bool, Error>
  {
    match raw
    case NullPermissions => Err(TypeError)
    case ScalarPermissions => Ok(false)
    case PermissionFields(r, _, ch) => Ok(TruthyField(if f == ReadFlag then r else ch))
  }

  /** A record as the ACL helpers see it. */
  function RecordOf(d: Option<Doc>): Option<map<string, Value>>
  {
    if d.Some? then Some(Base.RedactRead(d.value)) else None
  }

  /** The actor owns the record or is listed among its members or devices. */
  predicate Related(c: Config, d: Option<Doc>)
  {
    || c.acl.isOwner(RecordOf(d), c.actor)
    || c.acl.isMember(RecordOf(d), "members", c.actor)
    || c.acl.isMember(RecordOf(d), "devices", c.actor)
  }

  /** An ACL governing this record grants the actor `op`. */
  predicate AclGrants(ty: string, c: Config, d: Doc, op: string)
  {
    var acl := c.acl.aclByResource(Some(d.id), Some(ty));
    acl.Some? && c.acl.isAllowed(acl.value, c.actor, op)
  }

  /** The request is about the actor's own record. */
  predicate IsSelf(ty: string, c: Config, d: Doc)
  {
    ty == c.actor.ty && c.actor.id == d.id
  }

  /** `canRead` of an ACL record: its own grants, else the actor's standing on the governed resource. */
  function AclCanRead(c: Config, d: Doc): (r: Result<bool, Error>)
    ensures c.acl.findById(d.id).None? ==> r == Ok(false)
    ensures r.Err? ==> r.error == TypeError
  {
    match c.acl.findById(d.id)
    case None => Ok(false)
    case Some(acl) =>
      if c.acl.isAllowed(acl, c.actor, "read") then Ok(true)
      else if !IsAllowedCollection(c.collections, Some(acl.resource.ty)) then Ok(false)
      else
        match Resolve(c, acl.resource.ty)
        case Err(e) => Err(e)
        case Ok(raw) =>
          var resource := c.acl.findResource(acl.resource.ty, Some(acl.resource.id));
          match FlagOf(raw, ReadFlag)
          case Err(e) => Err(e)
          case Ok(read) => Ok(read && Related(c, resource))
  }

  /** `canRead(doc)`. */
  function CanRead(ty: string, c: Config, d: Doc): (r: Result<bool, Error>)
    ensures IsSelf(ty, c, d) ==> r == Ok(true)
    ensures ty != c.actor.ty && ty == "acl" ==> r == AclCanRead(c, d)
    ensures !IsSelf(ty, c, d) && !(ty != c.actor.ty && ty == "acl") ==>
      r == Ok(c.permissions.read && (Related(c, Some(d)) || AclGrants(ty, c, d, "read")))
  {
    if IsSelf(ty, c, d) then Ok(true)
    else if ty != c.actor.ty && ty == "acl" then AclCanRead(c, d)
    else
      var allow := c.permissions.read && Related(c, Some(d));
      if allow then Ok(true)
      else
        match c.acl.aclByResource(Some(d.id), Some(ty))
        case None => Ok(false)
        case Some(acl) => Ok(c.permissions.read && c.acl.isAllowed(acl, c.actor, "read"))
  }

  /** The `resource` reference of a record: `None` when it is null or absent, so reading it throws. */
  datatype ResourceRef = ResourceRef(id: Option<string>, ty: Option<string>)

  function ResourceOf(fields: map<string, Value>): Option<ResourceRef>
  {
    if "resource" !in fields || fields["resource"] == Null then None
    else
      match fields["resource"]
      case RefVal(r) => Some(ResourceRef(Some(r.id), Some(r.ty)))
      case _ => Some(ResourceRef(None, None))
  }

  /** `canNew` of an ACL record: a recognised, not yet governed resource that the actor owns. */
  function AclCanNew(c: Config, m: Msg): (r: Result<bool, Error>)
    ensures m.Falsy? ==> r == Ok(true)
    ensures r == Ok(true) && !m.Falsy? ==>
      && ResourceOf(FieldsOf(m)).Some?
      && IsAllowedCollection(c.collections, ResourceOf(FieldsOf(m)).value.ty)
      && c.acl.aclByResource(ResourceOf(FieldsOf(m)).value.id, ResourceOf(FieldsOf(m)).value.ty).None?
  {
    if m.Falsy? then Ok(true)
    else
      match ResourceOf(FieldsOf(m))
      case None => Err(TypeError)
      case Some(res) =>
        if !IsAllowedCollection(c.collections, res.ty) then Ok(false)
        else if c.acl.aclByResource(res.id, res.ty).Some? then Ok(false)
        else
          match Resolve(c, res.ty.value)
          case Err(e) => Err(e)
          case Ok(_) =>
            // the resolver's result is fetched but not consulted
            Ok(c.acl.isOwner(RecordOf(c.acl.findResource(res.ty.value, res.id)), c.actor))
  }

  /** `canNew(msg)`. */
  function CanNew(ty: string, c: Config, m: Msg): (r: Result<bool, Error>)
    ensures ty == "acl" ==> r == AclCanNew(c, m)
    ensures ty != "acl" && m.Falsy? ==> r == Ok(c.permissions.create)
    ensures ty != "acl" && !m.Falsy? ==> r == Ok(c.permissions.create && c.acl.isOwner(Some(FieldsOf(m)), c.actor))
  {
    if ty == "acl" then AclCanNew(c, m)
    else if m.Falsy? then Ok(c.permissions.create)
    else Ok(c.permissions.create && c.acl.isOwner(Some(FieldsOf(m)), c.actor))
  }

  /** The resource id and type `canChange` compares: an empty id counts as absent. */
  function ResourceKey(res: ResourceRef): ResourceRef
  {
    ResourceRef(if res.id == Some("") then None else res.id, res.ty)
  }

  /** `canChange` of an ACL record: no retargeting, and the actor owns the governed resource. */
  function AclCanChange(c: Config, prev: Doc, next: Doc): (r: Result<bool, Error>)
    ensures r == Ok(true) ==>
      && ResourceOf(prev.body).Some? && ResourceOf(next.body).Some?
      && ResourceKey(ResourceOf(prev.body).value) == ResourceKey(ResourceOf(next.body).value)
      && IsAllowedCollection(c.collections, ResourceOf(prev.body).value.ty)
    ensures ResourceOf(prev.body).None? || ResourceOf(next.body).None? ==> r == Err(TypeError)
  {
    match (ResourceOf(prev.body), ResourceOf(next.body))
    case (None, _) => Err(TypeError)
    case (_, None) => Err(TypeError)
    case (Some(res), Some(nres)) =>
      var key := ResourceKey(res);
      if !IsAllowedCollection(c.collections, key.ty) then Ok(false)
      else if key != ResourceKey(nres) then Ok(false)
      else
        match Resolve(c, key.ty.value)
        case Err(e) => Err(e)
        case Ok(raw) =>
          var resource := c.acl.findResource(key.ty.value, key.id);
          match (FlagOf(raw, ChangeFlag), FlagOf(raw, ReadFlag))
          case (Err(e), _) => Err(e)
          case (_, Err(e)) => Err(e)
          case (Ok(change), Ok(read)) => Ok((change || read) && c.acl.isOwner(RecordOf(resource), c.actor))
  }

  /** `canChange(old, new)`. */
  function CanChange(ty: string, c: Config, prev: Doc, next: Doc): (r: Result<bool, Error>)
    ensures IsSelf(ty, c, next) ==> r == Ok(c.permissions.change)
    ensures !IsSelf(ty, c, next) && ty == "acl" ==> r == AclCanChange(c, prev, next)
    ensures !IsSelf(ty, c, next) && ty != "acl" ==>
      r == Ok(c.permissions.change
              && ((c.acl.isOwner(RecordOf(Some(prev)), c.actor) && c.acl.isOwner(RecordOf(Some(next)), c.actor))
                  || AclGrants(ty, c, prev, "change")))
  {
    if IsSelf(ty, c, next) then Ok(c.permissions.change)
    else if ty == "acl" then AclCanChange(c, prev, next)
    else
      var allow := c.permissions.change
        && c.acl.isOwner(RecordOf(Some(prev)), c.actor)
        && c.acl.isOwner(RecordOf(Some(next)), c.actor);
      if allow then Ok(true)
      else
        match c.acl.aclByResource(Some(prev.id), Some(ty))
        case None => Ok(false)
        case Some(acl) => Ok(c.permissions.change && c.acl.isAllowed(acl, c.actor, "change"))
  }

  /** `owns(msg)`: the actor is recorded as owner or among the admins. */
  function Owns(c: Config, record: Option<map<string, Value>>): bool
  {
    c.acl.isMember(record, "owner", c.actor) || c.acl.isMember(record, "admins", c.actor)
  }

  /** `own` does nothing for this policy and returns nothing. */
  function Own(m: Msg): Option<Msg>
  {
    None
  }

  /**
   * Outside the ACL type and the actor's own record, the handler's `read`
   * permission is necessary for reading, its `new` permission for creating
   * and its `change` permission for changing, whatever the ACL grants.
   */
  lemma PermissionFlagsGate(ty: string, c: Config, d: Doc, next: Doc)
    requires ty != "acl"
    ensures !IsSelf(ty, c, d) && CanRead(ty, c, d) == Ok(true) ==> c.permissions.read
    ensures !IsSelf(ty, c, next) && CanChange(ty, c, d, next) == Ok(true) ==> c.permissions.change
    ensures forall m: Msg :: CanNew(ty, c, m) == Ok(true) ==> c.permissions.create
  {
  }
}

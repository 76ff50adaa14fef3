/**
 * The bouncers of bouncer.js, owner-bouncer.js and admin-bouncer.js: a
 * bouncer holds the collections of one request and answers a bundle of
 * crufls by handing each crufl whose type it serves to a new handler for
 * that collection. The base bouncer serves no type; the ownership and
 * administrative bouncers serve every type they hold a collection for.
 */
module Bouncers {
  import opened Values
  import opened Query
  import opened Handlers
  import OwnerCrufler
  import Store
  import opened Cruflers
  import opened Verbs

  /** A request: its id and its crufls, in order. */
  datatype Bundle = Bundle(uuid: string, crufls: seq<Crufl>)

  /** The answer to a bundle (a "freshpak"). */
  datatype Pack = Pack(uuid: string, freshness: seq<CruflResult>, complete: bool)

  /** Which bouncer: the base class, the ownership bouncer for an actor, or the administrative one. */
  datatype BouncerKind = BaseBouncer | OwnerBouncer(actor: Actor) | AdminBouncer

  /** The permissions an ownership handler starts from when the collection has no resolver. */
  const AllowAll: RawPermissions := PermissionFields(Some(Bool(true)), Some(Bool(true)), Some(Bool(true)))

  /** The verbs that may change the store. */
  predicate Writes(op: string)
  {
    op == "create" || op == "remove" || op == "update"
  }

  /**
   * What `freshen` reports for a crufl, whatever the store holds: the
   * crufl's verb, type and request id, always complete, either messages or
   * an error, and the check failures for a malformed crufl.
   */
  predicate Answers(c: Crufl, res: CruflResult)
  {
    && res.op == c.op && res.ty == c.ty && res.uuid == c.uuid && res.complete
    && (res.error.Some? <==> res.msgs.None?)
    && (TakesMessages(c.op) && !HasMessages(c) ==> res.error == Some("CheckFail: no messages"))
    && (!TakesMessages(c.op) && c.op != "find" ==> res.error == Some("CheckFail"))
  }

  /** Each result answers the crufl at the same position. */
  predicate AllAnswer(crufls: seq<Crufl>, results: seq<CruflResult>)
  {
    |results| == |crufls| && forall k | 0 <= k < |results| :: Answers(crufls[k], results[k])
  }

  lemma AllAnswerSnoc(crufls: seq<Crufl>, results: seq<CruflResult>, c: Crufl, res: CruflResult)
    requires AllAnswer(crufls, results) && Answers(c, res)
    ensures AllAnswer(crufls + [c], results + [res])
  {
  }

  class Bouncer {
    const kind: BouncerKind
    const collections: map<string, Store.Collection>
    const acl: OwnerCrufler.AclOracle   // the ACL model, as the request sees it

    constructor (kind: BouncerKind, collections: map<string, Store.Collection>, acl: OwnerCrufler.AclOracle)
      ensures this.kind == kind && this.collections == collections && this.acl == acl
    {
      this.kind := kind;
      this.collections := collections;
      this.acl := acl;
    }

    /** `isOnListFor(type)`. */
    predicate IsOnListFor(ty: string)
    {
      !kind.BaseBouncer? && ty in collections
    }

    /** What each collection's `permissions()` resolver yields, as the ownership handler sees the collections. */
    function Resolvers(): (m: map<string, Option<RawPermissions>>)
      ensures m.Keys == collections.Keys
      ensures forall t | t in collections :: m[t] == collections[t].permissions
    {
      map t | t in collections :: collections[t].permissions
    }

    /**
     * `getCruflerFor(type)`: no handler off the list; otherwise an
     * administrative handler, or an ownership handler for the actor whose
     * permissions are the resolver's answer, or all three granted when the
     * collection has no resolver.
     */
    function CruflerFor(ty: string): (r: Option<Handler>)
      ensures r.Some? <==> IsOnListFor(ty)
      ensures r.Some? ==> r.value.ty == ty
      ensures r.Some? && kind.AdminBouncer? ==> r.value.policy == Admin
      ensures r.Some? && kind.OwnerBouncer? ==>
        && r.value.policy.Owner?
        && r.value.policy.config.actor == kind.actor
        && r.value.policy.config.acl == acl
        && r.value.policy.config.collections.Keys == collections.Keys
        && (collections[ty].permissions.None? ==> r.value.policy.config.permissions == Permissions(true, true, true))
        && (collections[ty].permissions.Some? ==>
              r.value.policy.config.permissions == OwnerCrufler.Normalize(collections[ty].permissions.value))
    {
      if !IsOnListFor(ty) then None
      else
        match kind
        case AdminBouncer => Some(Handler(ty, Admin))
        case OwnerBouncer(actor) =>
          var raw := if collections[ty].permissions.Some? then collections[ty].permissions.value else AllowAll;
          Some(Handler(ty, Owner(OwnerCrufler.NewConfig(actor, raw, Resolvers(), acl))))
    }

    /** The crufls of a bundle this bouncer serves, in order. */
    function Listed(crufls: seq<Crufl>): (r: seq<Crufl>)
      ensures |r| <= |crufls|
      ensures forall c :: c in r <==> c in crufls && IsOnListFor(c.ty)
      ensures r == Filter(crufls, (c: Crufl) => IsOnListFor(c.ty))
      ensures kind.BaseBouncer? ==> r == []
    {
      if crufls == [] then []
      else
        var n := |crufls|;
        assert crufls == crufls[..n - 1] + [crufls[n - 1]];
        Listed(crufls[..n - 1]) + (if IsOnListFor(crufls[n - 1].ty) then [crufls[n - 1]] else [])
    }

    /** The collections the served crufls of a batch may write (a collection may be held under several types). */
    function Written(crufls: seq<Crufl>): set<Store.Collection>
    {
      if crufls == [] then {}
      else
        var n := |crufls|;
        var c := crufls[n - 1];
        Written(crufls[..n - 1]) + (if IsOnListFor(c.ty) && Writes(c.op) then {collections[c.ty]} else {})
    }

    /** A collection is written exactly when some served crufl of the batch writes it. */
    lemma {:induction false} WrittenMeaning(crufls: seq<Crufl>)
      ensures forall c | c in crufls && IsOnListFor(c.ty) && Writes(c.op) :: collections[c.ty] in Written(crufls)
      ensures forall coll | coll in Written(crufls) ::
        exists c | c in crufls :: IsOnListFor(c.ty) && collections[c.ty] == coll && Writes(c.op)
    {
      if crufls != [] {
        var n := |crufls|;
        WrittenMeaning(crufls[..n - 1]);
        assert forall x :: x in crufls <==> x in crufls[..n - 1] || x == crufls[n - 1];
      }
    }

    /** Every collection of the request satisfies the store invariant. */
    ghost predicate AllValid()
      reads collections.Values
    {
      forall t | t in collections :: collections[t].Valid()
    }

    /** Every collection outside `w` still holds what `docs0` records for its type. */
    ghost predicate KeptOutside(w: set<Store.Collection>, docs0: map<string, seq<Doc>>)
      reads collections.Values
    {
      forall t | t in collections && t in docs0 && collections[t] !in w :: collections[t].docs == docs0[t]
    }

    /**
     * `freshen(bundle)`: one result per served crufl, in bundle order, and
     * none for the others; a collection no served crufl writes keeps its
     * records.
     */
    method Freshen(bundle: Bundle) returns (pack: Pack)
      requires AllValid()
      modifies collections.Values
      ensures AllValid()
      ensures pack.uuid == bundle.uuid && pack.complete
      ensures |pack.freshness| == |Listed(bundle.crufls)|
      ensures forall k | 0 <= k < |pack.freshness| :: Answers(Listed(bundle.crufls)[k], pack.freshness[k])
      ensures forall t | t in collections && collections[t] !in Written(bundle.crufls) ::
        collections[t].docs == old(collections[t].docs)
    {
      var crufls := bundle.crufls;
      ghost var docs0 := map t | t in collections :: collections[t].docs;
      var results: seq<CruflResult> := [];
      ghost var listed: seq<Crufl> := [];
      var i := 0;
      while i < |crufls|
        invariant 0 <= i <= |crufls| && AllValid()
        invariant listed == Listed(crufls[..i]) && AllAnswer(listed, results)
        invariant KeptOutside(Written(crufls[..i]), docs0)
      {
        ListedSnoc(crufls, i);
        WrittenSnoc(crufls, i);
        var c := crufls[i];
        if IsOnListFor(c.ty) {
          var res := FreshenOne(c, Written(crufls[..i]), docs0);
          AllAnswerSnoc(listed, results, c, res);
          results := results + [res];
          listed := listed + [c];
        }
        i := i + 1;
      }
      assert crufls[..i] == crufls;
      pack := Pack(bundle.uuid, results, true);
    }

    /**
     * One served crufl of `freshen`: a new handler for its collection
     * freshens it. A read answers as on the records the collection holds and
     * leaves them alone; a write answers and leaves the collection as its
     * verb does on those records.
     */
    method FreshenOne(c: Crufl, ghost w: set<Store.Collection>, ghost docs0: map<string, seq<Doc>>) returns (res: CruflResult)
      requires IsOnListFor(c.ty) && AllValid() && KeptOutside(w, docs0)
      modifies collections[c.ty]
      ensures AllValid()
      ensures Answers(c, res)
      ensures KeptOutside(w + (if Writes(c.op) then {collections[c.ty]} else {}), docs0)
      ensures ReadsAs(c, res, old(collections[c.ty].docs))
      ensures !Writes(c.op) ==> collections[c.ty].docs == old(collections[c.ty].docs)
      ensures c.op == "remove" && HasMessages(c) ==>
        var o := RemoveResult(CruflerFor(c.ty).value, old(collections[c.ty].docs), collections[c.ty].removeFails, c.msgs.value);
        Reports(res, o.r) && collections[c.ty].docs == o.docs
      ensures c.op == "update" && HasMessages(c) ==>
        var o := UpdateResult(CruflerFor(c.ty).value, old(collections[c.ty].docs), collections[c.ty].saveFails, c.msgs.value);
        Reports(res, o.r) && collections[c.ty].docs == o.docs
      ensures c.op == "create" && HasMessages(c) ==>
        var coll := collections[c.ty];
        var o := CreateResult(CruflerFor(c.ty).value, old(coll.docs), old(coll.NextIds(|c.msgs.value|)), coll.accepts, c.msgs.value);
        Reports(res, o.r) && coll.docs == o.docs
    {
      var h := CruflerFor(c.ty).value;
      var coll := collections[c.ty];
      var crufler := new Crufler(h, coll);
      res := crufler.Freshen(c);
      assert coll.docs == crufler.collection.docs;
    }

    lemma WrittenSnoc(crufls: seq<Crufl>, i: nat)
      requires i < |crufls|
      ensures Written(crufls[..i + 1])
           == Written(crufls[..i]) + (if IsOnListFor(crufls[i].ty) && Writes(crufls[i].op) then {collections[crufls[i].ty]} else {})
    {
      assert crufls[..i + 1][..i] == crufls[..i];
    }

    lemma ListedSnoc(crufls: seq<Crufl>, i: nat)
      requires i < |crufls|
      ensures Listed(crufls[..i + 1]) == Listed(crufls[..i]) + (if IsOnListFor(crufls[i].ty) then [crufls[i]] else [])
    {
      assert crufls[..i + 1][..i] == crufls[..i];
    }

    /** A `find` or `lookup` result is the one the crufl's handler gives on a store holding `docs`. */
    predicate ReadsAs(c: Crufl, res: CruflResult, docs: seq<Doc>)
    {
      IsOnListFor(c.ty) ==>
        && (c.op == "find" ==> Reports(res, FindResult(CruflerFor(c.ty).value, docs, c.spec)))
        && (c.op == "lookup" && HasMessages(c) ==> Reports(res, LookupResult(CruflerFor(c.ty).value, docs, c.msgs.value)))
    }
  }

  /** The administrative bouncer hands out handlers that allow every read, creation and change. */
  lemma AdminBouncerAllows(b: Bouncer, ty: string, d: Doc, m: Msg, next: Doc)
    requires b.kind.AdminBouncer? && ty in b.collections
    ensures b.CruflerFor(ty).Some?
    ensures CanRead(b.CruflerFor(ty).value, d) == Ok(true)
    ensures CanNew(b.CruflerFor(ty).value, m) == Ok(true)
    ensures CanChange(b.CruflerFor(ty).value, d, next) == Ok(true)
  {
  }

  /** The base bouncer serves nothing, so it answers every bundle with no results and changes no store. */
  lemma BaseBouncerServesNothing(b: Bouncer, crufls: seq<Crufl>)
    requires b.kind.BaseBouncer?
    ensures b.Listed(crufls) == []
    ensures b.Written(crufls) == {}
  {
  }
}

/**
 * A document collection as the handlers use it (a mongoose model): records in
 * natural order with unique ObjectIds, batch insert, query, remove by id, and
 * a save guarded by the revision counter. The store's own failures (schema
 * rejection, write errors) and its ObjectId generator are parameters.
 */
module Store {
  import opened Values
  import opened Query

  /** The ids a batch insert would assign are pairwise distinct and not yet used. */
  predicate FreshIds(docs: seq<Doc>, ids: seq<Oid>)
  {
    && (forall k, l | 0 <= k < l < |ids| :: ids[k] != ids[l])
    && (forall k, i | 0 <= k < |ids| && 0 <= i < |docs| :: ids[k] != docs[i].id)
  }

  function IdIsNot(id: Oid): Doc -> bool
  {
    (d: Doc) => d.id != id
  }

  /** The collection after deleting the record with the given id. */
  function Without(docs: seq<Doc>, id: Oid): (r: seq<Doc>)
    ensures forall d :: d in r <==> d in docs && d.id != id
    ensures UniqueIds(docs) ==> UniqueIds(r)
  {
    FilterKeepsUniqueIds(docs, IdIsNot(id));
    Filter(docs, IdIsNot(id))
  }

  /** The collection after writing `d` over the record with the same id. */
  function Replaced(docs: seq<Doc>, d: Doc): (r: seq<Doc>)
    ensures |r| == |docs|
    ensures forall i | 0 <= i < |docs| :: r[i].id == docs[i].id
    ensures forall i | 0 <= i < |docs| :: r[i] == (if docs[i].id == d.id then d else docs[i])
  {
    seq(|docs|, i requires 0 <= i < |docs| => if docs[i].id == d.id then d else docs[i])
  }

  /** Whether the collection holds a record with this id and this revision. */
  predicate HasVersion(docs: seq<Doc>, id: Oid, version: nat)
  {
    exists i | 0 <= i < |docs| :: docs[i].id == id && docs[i].version == version
  }

  class Collection {
    var docs: seq<Doc>
    var issued: nat                               // ObjectIds generated so far
    const newId: nat -> Oid                       // the ObjectId generator
    const accepts: map<string, Value> -> bool     // the schema check of an insert
    const saveFails: Oid -> bool                  // a write error on save
    const removeFails: Oid -> bool                // a write error on remove
    const permissions: Option<RawPermissions>     // what the `permissions()` resolver yields, if the model has one

    ghost predicate Valid()
      reads this
    {
      && UniqueIds(docs)
      && (forall i | 0 <= i < |docs| :: IsOid(docs[i].id))
      && (forall k: nat :: IsOid(newId(k)))
    }

    constructor (newId: nat -> Oid, accepts: map<string, Value> -> bool, saveFails: Oid -> bool,
                 removeFails: Oid -> bool, permissions: Option<RawPermissions>)
      requires forall k: nat :: IsOid(newId(k))
      ensures Valid() && docs == [] && issued == 0
      ensures this.newId == newId && this.accepts == accepts && this.saveFails == saveFails
      ensures this.removeFails == removeFails && this.permissions == permissions
    {
      this.docs := [];
      this.issued := 0;
      this.newId := newId;
      this.accepts := accepts;
      this.saveFails := saveFails;
      this.removeFails := removeFails;
      this.permissions := permissions;
    }

    /** The ids the next batch insert of `n` records assigns. */
    function NextIds(n: nat): (ids: seq<Oid>)
      reads this
      ensures |ids| == n
    {
      var start := issued;
      seq(n, k requires 0 <= k < n => newId(start + k))
    }

    /**
     * `insertMany`: all records are stored, with fresh ids and revision 0, or,
     * when one breaks the schema or an id is taken, none is.
     */
    method InsertMany(bodies: seq<map<string, Value>>) returns (r: Option<seq<Doc>>)
      requires Valid()
      modifies this
      ensures Valid()
      ensures r.Some? <==> (forall k | 0 <= k < |bodies| :: accepts(bodies[k])) && FreshIds(old(docs), old(NextIds(|bodies|)))
      ensures r.Some? ==> |r.value| == |bodies| && docs == old(docs) + r.value
      ensures r.Some? ==> forall k | 0 <= k < |bodies| :: r.value[k] == Doc(old(NextIds(|bodies|))[k], 0, bodies[k])
      ensures r.None? ==> docs == old(docs) && issued == old(issued)
    {
      var ids := NextIds(|bodies|);
      if (forall k | 0 <= k < |bodies| :: accepts(bodies[k])) && FreshIds(docs, ids) {
        var added := seq(|bodies|, k requires 0 <= k < |bodies| => Doc(ids[k], 0, bodies[k]));
        docs := docs + added;
        issued := issued + |bodies|;
        r := Some(added);
      } else {
        r := None;
      }
    }

    /** `find(queryDoc)` with optional limit: the matching records in natural order. */
    method Find(spec: QuerySpec) returns (found: seq<Doc>)
      requires Valid()
      ensures found == Select(docs, spec)
      ensures UniqueIds(found) && forall d | d in found :: d in docs && Matches(spec, d)
    {
      found := Select(docs, spec);
    }

    /** `doc.remove()`: deletes the record with this id unless the store fails. */
    method RemoveDoc(id: Oid) returns (ok: bool)
      requires Valid()
      modifies this
      ensures Valid() && issued == old(issued)
      ensures ok == !removeFails(id)
      ensures docs == if ok then Without(old(docs), id) else old(docs)
    {
      ok := !removeFails(id);
      if ok {
        docs := Without(docs, id);
      }
    }

    /**
     * `doc.save()` after `doc.increment()`: writes `d` over the stored record
     * only when the stored revision is exactly one below `d`'s, so a stale
     * revision fails instead of overwriting.
     */
    method Save(d: Doc) returns (r: Option<Doc>)
      requires Valid()
      modifies this
      ensures Valid() && issued == old(issued)
      ensures r.Some? <==> !saveFails(d.id) && d.version > 0 && HasVersion(old(docs), d.id, d.version - 1)
      ensures r.Some? ==> r.value == d && docs == Replaced(old(docs), d)
      ensures r.None? ==> docs == old(docs)
    {
      if !saveFails(d.id) && d.version > 0 && HasVersion(docs, d.id, d.version - 1) {
        docs := Replaced(docs, d);
        r := Some(d);
      } else {
        r := None;
      }
    }
  }
}

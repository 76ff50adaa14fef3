/**
 * The handler object of crufler.js: a policy bound to one collection, with
 * the five verbs and `freshen`. Each verb is a loop over the messages or the
 * found records that fills the envelopes and changes the store in place; its
 * contract ties the answer and the new store to the `Verbs` functions, whose
 * meaning the lemmas there establish.
 */
module Cruflers {
  import opened Values
  import opened Query
  import Base
  import opened Handlers
  import Store
  import opened Verbs

  /** One crufl of a bundle: the verb, the collection type, the request id, and the messages or the query. */
  datatype Crufl = Crufl(op: string, ty: string, uuid: string, msgs: Option<seq<Msg>>, spec: QuerySpec)

  /** What `freshen` answers for one crufl. */
  datatype CruflResult = CruflResult(op: string, ty: string, uuid: string, complete: bool, msgs: Option<seq<Envelope>>, error: Option<string>)

  /** The verbs that take messages. */
  predicate TakesMessages(op: string)
  {
    op == "create" || op == "remove" || op == "update" || op == "lookup"
  }

  /** The crufl carries at least one message. */
  predicate HasMessages(c: Crufl)
  {
    c.msgs.Some? && |c.msgs.value| > 0
  }

  /** A verb's answer as `freshen` reports it: the envelopes, or the error's message. */
  predicate Reports(res: CruflResult, r: Result<seq<Envelope>, Error>)
  {
    match r
    case Ok(out) => res.msgs == Some(out) && res.error.None?
    case Err(e) => res.msgs.None? && res.error == Some(Message(e))
  }

  class Crufler {
    const h: Handler
    const collection: Store.Collection

    constructor (h: Handler, collection: Store.Collection)
      ensures this.h == h && this.collection == collection
    {
      this.h := h;
      this.collection := collection;
    }

    /** `findByOid(oids)`: fetch by id through the filtered query, then keep what `canRead` allows. */
    method FindByOid(oids: set<Oid>) returns (r: Result<seq<Doc>, Error>)
      requires collection.Valid()
      ensures r == FoundFor(h, collection.docs, oids)
    {
      var spec := FilterQuerySpec(h, IdsSpec(oids));
      var found := collection.Find(spec);
      r := KeepReadable(found);
    }

    /** The read filter of `findByOid`: keep the records `canRead` allows, in order; a throwing check rejects the batch. */
    method KeepReadable(found: seq<Doc>) returns (r: Result<seq<Doc>, Error>)
      ensures r == ReadFilter(h, found)
    {
      var kept: seq<Doc> := [];
      var i := 0;
      while i < |found|
        invariant 0 <= i <= |found|
        invariant ReadFilter(h, found[..i]) == Ok(kept)
      {
        ReadFilterSnoc(h, found, i);
        var allowed := CanRead(h, found[i]);
        if allowed.Err? {
          ReadFilterErrSticks(h, found, i + 1);
          return Err(allowed.error);
        }
        if allowed.value {
          kept := kept + [found[i]];
        }
        i := i + 1;
      }
      assert found[..i] == found;
      r := Ok(kept);
    }

    /**
     * The first loop of `remove`, `update` and `lookup`: one `IdFail`
     * envelope per valid message, the index from ObjectId to envelope, and
     * for `update` the redacted payload per ObjectId.
     */
    method SeedBatch(msgs: seq<Msg>, mode: SeedMode) returns (r: Result<Seeding, Error>)
      ensures r == Seed(h, msgs, mode)
    {
      var out: seq<Envelope> := [];
      var index: map<Oid, nat> := map[];
      var payload: map<Oid, map<string, Value>> := map[];
      var i := 0;
      while i < |msgs|
        invariant 0 <= i <= |msgs|
        invariant Seed(h, msgs[..i], mode) == Ok(Seeding(out, index, payload))
      {
        SeedSnoc(h, msgs, mode, i);
        var m := msgs[i];
        if !Base.IsValid(h.ty, m) {
          if mode == ForLookup {
            SeedErrSticks(h, msgs, mode, i + 1);
            return Err(MalformedMessage);
          }
        } else {
          var id := m.meta.value.id.value;
          var oid := ParseOid(id);
          if oid.None? {
            SeedErrSticks(h, msgs, mode, i + 1);
            return Err(MalformedId);
          }
          if mode == ForUpdate {
            var p := RedactWrite(h, m);
            if p.Err? {
              SeedErrSticks(h, msgs, mode, i + 1);
              return Err(p.error);
            }
            payload := payload[oid.value := p.value];
          }
          index := index[oid.value := |out|];
          out := out + [Base.Seeded(h.ty, id)];
        }
        i := i + 1;
      }
      assert msgs[..i] == msgs;
      r := Ok(Seeding(out, index, payload));
    }

    /** `create(msgs)`: all messages are stored, or none. */
    method Create(msgs: seq<Msg>) returns (r: Result<seq<Envelope>, Error>)
      requires collection.Valid()
      modifies collection
      ensures collection.Valid()
      ensures Outcome(r, collection.docs)
           == CreateResult(h, old(collection.docs), old(collection.NextIds(|msgs|)), collection.accepts, msgs)
    {
      ghost var ids := collection.NextIds(|msgs|);
      var permitted := CanNewAll(h, msgs);
      if permitted.Err? {
        return Err(permitted.error);
      }
      if !permitted.value {
        return Err(PermissionFail);
      }
      var prepped := RedactWriteAll(h, msgs);
      if prepped.Err? {
        return Err(SchemaFail);
      }
      var inserted := collection.InsertMany(prepped.value);
      if inserted.None? {
        return Err(SchemaFail);
      }
      var added := inserted.value;
      assert added == Inserted(ids, prepped.value);
      var out: seq<Envelope> := [];
      var k := 0;
      while k < |added|
        invariant 0 <= k <= |added|
        invariant |out| == k && forall j | 0 <= j < k :: out[j] == Base.Fresh(h.ty, added[j], false)
      {
        out := out + [Base.Fresh(h.ty, added[k], false)];
        k := k + 1;
      }
      assert out == seq(|added|, j requires 0 <= j < |added| => Base.Fresh(h.ty, added[j], false));
      r := Ok(out);
    }

    /** `remove(msgs)`: seed an envelope per valid message, then delete each found record the actor may change. */
    method Remove(msgs: seq<Msg>) returns (r: Result<seq<Envelope>, Error>)
      requires collection.Valid()
      modifies collection
      ensures collection.Valid()
      ensures Outcome(r, collection.docs) == RemoveResult(h, old(collection.docs), collection.removeFails, msgs)
    {
      var seeded := SeedBatch(msgs, ForRemove);
      if seeded.Err? {
        return Err(seeded.error);
      }
      var s := seeded.value;
      SeedShape(h, msgs, ForRemove);
      var fetched := FindByOid(s.index.Keys);
      if fetched.Err? {
        return Err(fetched.error);
      }
      r := RemoveFound(s.index, s.out, fetched.value);
    }

    /** The second loop of `remove`: per found record, check `canChange` and delete it. */
    method RemoveFound(index: map<Oid, nat>, seeded: seq<Envelope>, found: seq<Doc>) returns (r: Result<seq<Envelope>, Error>)
      requires collection.Valid() && IndexFits(index, |seeded|)
      modifies collection
      ensures collection.Valid()
      ensures Outcome(r, collection.docs) == Finish(RemovePasses(h, collection.removeFails, index, Pass(seeded, old(collection.docs), None), found))
    {
      ghost var p0 := Pass(seeded, collection.docs, None);
      var out := seeded;
      var j := 0;
      while j < |found|
        invariant 0 <= j <= |found| && collection.Valid() && |out| == |seeded|
        invariant RemovePasses(h, collection.removeFails, index, p0, found[..j]) == Pass(out, collection.docs, None)
      {
        assert found[..j + 1][..j] == found[..j];
        ghost var before := Pass(out, collection.docs, None);
        var d := found[j];
        if d.id in index {
          var k := index[d.id];
          var allowed := CanChange(h, d, d);
          if allowed.Err? {
            RemovePassesErrSticks(h, collection.removeFails, index, p0, found, j + 1);
            return Err(allowed.error);
          }
          if !allowed.value {
            out := out[k := Base.WithError(out[k], PermissionFail)];
          } else {
            var ok := collection.RemoveDoc(d.id);
            if ok {
              out := out[k := Base.Merged(out[k], h.ty, d, true)];
            } else {
              out := out[k := Base.WithError(out[k], BouncerFail)];
            }
          }
        }
        assert RemoveStep(h, collection.removeFails, index, before, d) == Pass(out, collection.docs, None);
        j := j + 1;
      }
      assert found[..j] == found;
      r := Ok(out);
    }

    /** `update(msgs)`: seed and redact per valid message, then patch and save each found record the actor may change. */
    method Update(msgs: seq<Msg>) returns (r: Result<seq<Envelope>, Error>)
      requires collection.Valid()
      modifies collection
      ensures collection.Valid()
      ensures Outcome(r, collection.docs) == UpdateResult(h, old(collection.docs), collection.saveFails, msgs)
    {
      var seeded := SeedBatch(msgs, ForUpdate);
      if seeded.Err? {
        return Err(seeded.error);
      }
      var s := seeded.value;
      SeedShape(h, msgs, ForUpdate);
      SeedPayload(h, msgs);
      var fetched := FindByOid(s.payload.Keys);
      if fetched.Err? {
        return Err(fetched.error);
      }
      r := UpdateFound(s, fetched.value);
    }

    /** The second loop of `update`: per found record, patch it, check `canChange`, and save it one revision up. */
    method UpdateFound(s: Seeding, found: seq<Doc>) returns (r: Result<seq<Envelope>, Error>)
      requires collection.Valid() && IndexFits(s.index, |s.out|)
      modifies collection
      ensures collection.Valid()
      ensures Outcome(r, collection.docs) == Finish(UpdatePasses(h, collection.saveFails, s, Pass(s.out, old(collection.docs), None), found))
    {
      ghost var p0 := Pass(s.out, collection.docs, None);
      var out := s.out;
      var j := 0;
      while j < |found|
        invariant 0 <= j <= |found| && collection.Valid() && |out| == |s.out|
        invariant UpdatePasses(h, collection.saveFails, s, p0, found[..j]) == Pass(out, collection.docs, None)
      {
        assert found[..j + 1][..j] == found[..j];
        ghost var before := Pass(out, collection.docs, None);
        var d := found[j];
        if d.id in s.payload && d.id in s.index {
          var k := s.index[d.id];
          var next := Patched(d, s.payload[d.id]);
          var allowed := CanChange(h, d, next);
          if allowed.Err? {
            UpdatePassesErrSticks(h, collection.saveFails, s, p0, found, j + 1);
            return Err(allowed.error);
          }
          if !allowed.value {
            out := out[k := Base.WithError(out[k], PermissionFail)];
          } else {
            assert next.(version := d.version + 1) == Saved(d, s.payload[d.id]);
            var saved := collection.Save(next.(version := d.version + 1));
            if saved.Some? {
              out := out[k := Base.Merged(out[k], h.ty, saved.value, false)];
            } else {
              out := out[k := Base.WithError(out[k], BouncerFail)];
            }
          }
        }
        assert UpdateStep(h, collection.saveFails, s, before, d) == Pass(out, collection.docs, None);
        j := j + 1;
      }
      assert found[..j] == found;
      r := Ok(out);
    }

    /** `lookup(msgs)`: every message must be valid; found records overwrite their envelopes. */
    method Lookup(msgs: seq<Msg>) returns (r: Result<seq<Envelope>, Error>)
      requires collection.Valid()
      ensures r == LookupResult(h, collection.docs, msgs)
    {
      var seeded := SeedBatch(msgs, ForLookup);
      if seeded.Err? {
        return Err(seeded.error);
      }
      var s := seeded.value;
      SeedShape(h, msgs, ForLookup);
      var fetched := FindByOid(s.index.Keys);
      if fetched.Err? {
        return Err(fetched.error);
      }
      var out := LookupFound(s.index, s.out, fetched.value);
      r := Ok(out);
    }

    /** The second loop of `lookup`: merge each found record into the envelope last seeded for its id. */
    method LookupFound(index: map<Oid, nat>, seeded: seq<Envelope>, found: seq<Doc>) returns (out: seq<Envelope>)
      requires IndexFits(index, |seeded|)
      ensures out == LookupPasses(h.ty, index, seeded, found)
    {
      out := seeded;
      var j := 0;
      while j < |found|
        invariant 0 <= j <= |found| && |out| == |seeded|
        invariant LookupPasses(h.ty, index, seeded, found[..j]) == out
      {
        assert found[..j + 1][..j] == found[..j];
        var d := found[j];
        if d.id in index {
          out := out[index[d.id] := Base.Merged(out[index[d.id]], h.ty, d, false)];
        }
        j := j + 1;
      }
      assert found[..j] == found;
    }

    /** `find(spec)`: metadata of the records the filtered query returns and the actor may read. */
    method Find(spec: QuerySpec) returns (r: Result<seq<Envelope>, Error>)
      requires collection.Valid()
      ensures r == FindResult(h, collection.docs, spec)
    {
      var filtered := FilterQuerySpec(h, spec);
      var found := collection.Find(filtered);
      var projected := Projected(found);
      ghost var kept: seq<Doc> := [];
      var msgs: seq<Envelope> := [];
      var i := 0;
      while i < |projected|
        invariant 0 <= i <= |projected|
        invariant ReadFilter(h, projected[..i]) == Ok(kept)
        invariant |msgs| == |kept| && forall k | 0 <= k < |kept| :: msgs[k] == MetaOnly(h.ty, kept[k])
      {
        ReadFilterSnoc(h, projected, i);
        var d := projected[i];
        var allowed := CanRead(h, d);
        if allowed.Err? {
          ReadFilterErrSticks(h, projected, i + 1);
          return Err(QueryFail);
        }
        if allowed.value {
          kept := kept + [d];
          msgs := msgs + [MetaOnly(h.ty, d)];
        }
        i := i + 1;
      }
      assert projected[..i] == projected;
      assert msgs == seq(|kept|, k requires 0 <= k < |kept| => MetaOnly(h.ty, kept[k]));
      r := Ok(msgs);
    }

    /** `freshen(crufl)`: run the named verb and report its answer or its error, never failing itself. */
    method Freshen(crufl: Crufl) returns (res: CruflResult)
      requires collection.Valid()
      modifies collection
      ensures collection.Valid()
      ensures res.op == crufl.op && res.ty == h.ty && res.uuid == crufl.uuid && res.complete
      ensures res.error.Some? <==> res.msgs.None?
      ensures TakesMessages(crufl.op) && !HasMessages(crufl) ==>
        res.error == Some("CheckFail: no messages") && collection.docs == old(collection.docs)
      ensures !TakesMessages(crufl.op) && crufl.op != "find" ==>
        res.error == Some("CheckFail") && collection.docs == old(collection.docs)
      ensures crufl.op == "find" ==>
        Reports(res, FindResult(h, old(collection.docs), crufl.spec)) && collection.docs == old(collection.docs)
      ensures crufl.op == "lookup" && HasMessages(crufl) ==>
        Reports(res, LookupResult(h, old(collection.docs), crufl.msgs.value)) && collection.docs == old(collection.docs)
      ensures crufl.op == "remove" && HasMessages(crufl) ==>
        var o := RemoveResult(h, old(collection.docs), collection.removeFails, crufl.msgs.value);
        Reports(res, o.r) && collection.docs == o.docs
      ensures crufl.op == "update" && HasMessages(crufl) ==>
        var o := UpdateResult(h, old(collection.docs), collection.saveFails, crufl.msgs.value);
        Reports(res, o.r) && collection.docs == o.docs
      ensures crufl.op == "create" && HasMessages(crufl) ==>
        var o := CreateResult(h, old(collection.docs), old(collection.NextIds(|crufl.msgs.value|)), collection.accepts, crufl.msgs.value);
        Reports(res, o.r) && collection.docs == o.docs
    {
      var r: Result<seq<Envelope>, Error>;
      if TakesMessages(crufl.op) {
        if !HasMessages(crufl) {
          return CruflResult(crufl.op, h.ty, crufl.uuid, true, None, Some("CheckFail: no messages"));
        }
        var msgs := crufl.msgs.value;
        if crufl.op == "create" {
          r := Create(msgs);
        } else if crufl.op == "remove" {
          r := Remove(msgs);
        } else if crufl.op == "update" {
          r := Update(msgs);
        } else {
          r := Lookup(msgs);
        }
      } else if crufl.op == "find" {
        r := Find(crufl.spec);
      } else {
        return CruflResult(crufl.op, h.ty, crufl.uuid, true, None, Some("CheckFail"));
      }
      match r
      case Ok(out) =>
        res := CruflResult(crufl.op, h.ty, crufl.uuid, true, Some(out), None);
      case Err(e) =>
        res := CruflResult(crufl.op, h.ty, crufl.uuid, true, None, Some(Message(e)));
    }
  }
}

/**
 * The verbs of crufler.js as functions of the store's contents: the seeding
 * pass over the input messages, the per-record passes of `remove`, `update`
 * and `lookup`, and the result of `find`. The `Cruflers.Crufler` methods are
 * proved equal to these; the lemmas here say what the results mean.
 */
module Verbs {
  import opened Values
  import opened Query
  import Base
  import opened Handlers
  import Store

  // Seeding: one `IdFail` envelope per message and a map from ObjectId to it

  datatype SeedMode = ForRemove | ForUpdate | ForLookup

  /**
   * The envelopes seeded so far, the `oidMap`/`outMap` from ObjectId to the
   * position of the envelope last seeded for it, and (for `update`) the
   * `inMap` of redacted payloads.
   */
  datatype Seeding = Seeding(out: seq<Envelope>, index: map<Oid, nat>, payload: map<Oid, map<string, Value>>)

  /** A valid message whose id is not an ObjectId. */
  predicate BadId(ty: string, m: Msg)
  {
    Base.IsValid(ty, m) && ParseOid(m.meta.value.id.value).None?
  }

  /** Every envelope is still seeded, and the map sends each ObjectId to an envelope for that ObjectId. */
  ghost predicate WellSeeded(ty: string, s: Seeding)
  {
    && (forall i | 0 <= i < |s.out| ::
          && s.out[i] == Base.Seeded(ty, s.out[i].meta.id)
          && ParseOid(s.out[i].meta.id).Some?
          && ParseOid(s.out[i].meta.id).value in s.index)
    && (forall o | o in s.index :: s.index[o] < |s.out| && ParseOid(s.out[s.index[o]].meta.id) == Some(o))
  }

  /**
   * The first loop of `remove`, `update` and `lookup`. `remove` and `update`
   * skip invalid messages and `lookup` rejects the call on one; an id that is
   * not an ObjectId rejects the call; `update` redacts each payload, which the
   * base handler refuses.
   */
  function Seed(h: Handler, msgs: seq<Msg>, mode: SeedMode): (r: Result<Seeding, Error>)
    ensures r.Ok? ==> |r.value.out| <= |msgs|
    ensures r.Err? ==> r.error in {MalformedId, MalformedMessage, NotImplemented}
  {
    if msgs == [] then Ok(Seeding([], map[], map[]))
    else
      var n := |msgs|;
      SeedStep(h, Seed(h, msgs[..n - 1], mode), msgs[n - 1], mode)
  }

  /** One round of the seeding loop. */
  function SeedStep(h: Handler, prev: Result<Seeding, Error>, m: Msg, mode: SeedMode): (r: Result<Seeding, Error>)
    ensures prev.Ok? && r.Ok? ==> |r.value.out| <= |prev.value.out| + 1
    ensures prev.Err? ==> r == prev
    ensures r.Err? && prev.Ok? ==> r.error in {MalformedId, MalformedMessage, NotImplemented}
  {
    match prev
    case Err(e) => Err(e)
    case Ok(s) =>
      if !Base.IsValid(h.ty, m) then
        if mode == ForLookup then Err(MalformedMessage) else Ok(s)
      else
        var id := m.meta.value.id.value;
        match ParseOid(id)
        case None => Err(MalformedId)
        case Some(oid) =>
          var out := s.out + [Base.Seeded(h.ty, id)];
          var index := s.index[oid := |s.out|];
          if mode != ForUpdate then
            Ok(Seeding(out, index, s.payload))
          else
            match RedactWrite(h, m)
            case Err(e) => Err(e)
            case Ok(p) => Ok(Seeding(out, index, s.payload[oid := p]))
  }

  /** What a successful round of the seeding loop adds. */
  lemma SeedStepOk(h: Handler, s: Seeding, m: Msg, mode: SeedMode)
    requires SeedStep(h, Ok(s), m, mode).Ok?
    ensures !Base.IsValid(h.ty, m) ==> SeedStep(h, Ok(s), m, mode).value == s
    ensures Base.IsValid(h.ty, m) ==>
      var id := m.meta.value.id.value;
      var r := SeedStep(h, Ok(s), m, mode).value;
      && ParseOid(id).Some?
      && r.out == s.out + [Base.Seeded(h.ty, id)]
      && r.index == s.index[ParseOid(id).value := |s.out|]
      && (mode != ForUpdate ==> r.payload == s.payload)
      && (mode == ForUpdate ==> RedactWrite(h, m).Ok? && r.payload == s.payload[ParseOid(id).value := RedactWrite(h, m).value])
  {
  }

  lemma SeedSnoc(h: Handler, msgs: seq<Msg>, mode: SeedMode, i: nat)
    requires i < |msgs|
    ensures Seed(h, msgs[..i + 1], mode) == SeedStep(h, Seed(h, msgs[..i], mode), msgs[i], mode)
  {
    assert msgs[..i + 1][..i] == msgs[..i];
  }

  /** The index sends each ObjectId to the envelope seeded last for it: no later envelope has that ObjectId. */
  ghost predicate LastSeeded(s: Seeding)
  {
    forall o, j | o in s.index && s.index[o] < j < |s.out| :: ParseOid(s.out[j].meta.id) != Some(o)
  }

  /**
   * A successful seeding holds one `IdFail` envelope per valid message, with
   * its id, in input order, and indexes each ObjectId to the envelope seeded
   * last for it.
   */
  lemma SeedShape(h: Handler, msgs: seq<Msg>, mode: SeedMode)
    requires Seed(h, msgs, mode).Ok?
    ensures WellSeeded(h.ty, Seed(h, msgs, mode).value)
    ensures LastSeeded(Seed(h, msgs, mode).value)
    ensures |Seed(h, msgs, mode).value.out| == |Base.ValidIds(h.ty, msgs)|
    ensures forall i | 0 <= i < |Base.ValidIds(h.ty, msgs)| ::
      Seed(h, msgs, mode).value.out[i].meta.id == Base.ValidIds(h.ty, msgs)[i]
  {
    SeedIndexed(h, msgs, mode);
    SeedIds(h, msgs, mode);
  }

  /** The index of a successful seeding is well formed and points at the envelopes seeded last. */
  lemma {:induction false} SeedIndexed(h: Handler, msgs: seq<Msg>, mode: SeedMode)
    requires Seed(h, msgs, mode).Ok?
    ensures WellSeeded(h.ty, Seed(h, msgs, mode).value)
    ensures LastSeeded(Seed(h, msgs, mode).value)
  {
    if msgs != [] {
      var n := |msgs|;
      var m := msgs[n - 1];
      SeedIndexed(h, msgs[..n - 1], mode);
      var s := Seed(h, msgs[..n - 1], mode).value;
      SeedStepOk(h, s, m, mode);
      if Base.IsValid(h.ty, m) {
        var id := m.meta.value.id.value;
        WellSeededSnoc(h.ty, s, id, ParseOid(id).value, Seed(h, msgs, mode).value);
        LastSeededSnoc(h.ty, s, id, ParseOid(id).value, Seed(h, msgs, mode).value);
      }
    }
  }

  /** The envelopes of a successful seeding carry the valid messages' ids, in order. */
  lemma {:induction false} SeedIds(h: Handler, msgs: seq<Msg>, mode: SeedMode)
    requires Seed(h, msgs, mode).Ok?
    ensures |Seed(h, msgs, mode).value.out| == |Base.ValidIds(h.ty, msgs)|
    ensures forall i | 0 <= i < |Base.ValidIds(h.ty, msgs)| ::
      Seed(h, msgs, mode).value.out[i].meta.id == Base.ValidIds(h.ty, msgs)[i]
  {
    if msgs != [] {
      var n := |msgs|;
      SeedIds(h, msgs[..n - 1], mode);
      SeedStepOk(h, Seed(h, msgs[..n - 1], mode).value, msgs[n - 1], mode);
    }
  }

  /** Seeding one more envelope and indexing its ObjectId to it keeps every index entry on the last envelope. */
  lemma LastSeededSnoc(ty: string, s: Seeding, id: string, oid: Oid, r: Seeding)
    requires LastSeeded(s) && IndexFits(s.index, |s.out|) && ParseOid(id) == Some(oid)
    requires r.out == s.out + [Base.Seeded(ty, id)] && r.index == s.index[oid := |s.out|]
    ensures LastSeeded(r)
  {
    forall o, j | o in r.index && r.index[o] < j < |r.out|
      ensures ParseOid(r.out[j].meta.id) != Some(o)
    {
      assert o != oid;
      if j < |s.out| {
        assert r.out[j] == s.out[j];
      }
    }
  }

  /** Seeding one more envelope, and indexing its ObjectId to it, keeps a seeding well formed. */
  lemma WellSeededSnoc(ty: string, s: Seeding, id: string, oid: Oid, r: Seeding)
    requires WellSeeded(ty, s) && ParseOid(id) == Some(oid)
    requires r.out == s.out + [Base.Seeded(ty, id)] && r.index == s.index[oid := |s.out|]
    ensures WellSeeded(ty, r)
  {
    forall i | 0 <= i < |r.out|
      ensures r.out[i] == Base.Seeded(ty, r.out[i].meta.id)
      ensures ParseOid(r.out[i].meta.id).Some? && ParseOid(r.out[i].meta.id).value in r.index
    {
      if i < |s.out| {
        assert r.out[i] == s.out[i];
      }
    }
  }

  /** Some valid message of the batch names ObjectId `o` and redacts to `p`. */
  predicate RedactedFrom(h: Handler, msgs: seq<Msg>, o: Oid, p: map<string, Value>)
  {
    exists i | 0 <= i < |msgs| ::
      && Base.IsValid(h.ty, msgs[i])
      && ParseOid(msgs[i].meta.value.id.value) == Some(o)
      && RedactWrite(h, msgs[i]) == Ok(p)
  }

  /** In `update`, the payload kept for an ObjectId is the redacted form of a valid message naming it. */
  lemma {:induction false} SeedPayload(h: Handler, msgs: seq<Msg>)
    requires Seed(h, msgs, ForUpdate).Ok?
    ensures Seed(h, msgs, ForUpdate).value.payload.Keys == Seed(h, msgs, ForUpdate).value.index.Keys
    ensures forall o | o in Seed(h, msgs, ForUpdate).value.payload ::
      RedactedFrom(h, msgs, o, Seed(h, msgs, ForUpdate).value.payload[o])
  {
    if msgs != [] {
      var n := |msgs|;
      var pre := msgs[..n - 1];
      var m := msgs[n - 1];
      SeedPayload(h, pre);
      var s := Seed(h, pre, ForUpdate).value;
      var r := Seed(h, msgs, ForUpdate).value;
      SeedStepOk(h, s, m, ForUpdate);
      forall o | o in r.payload
        ensures RedactedFrom(h, msgs, o, r.payload[o])
      {
        if Base.IsValid(h.ty, m) && ParseOid(m.meta.value.id.value) == Some(o) {
          assert RedactWrite(h, msgs[n - 1]) == Ok(r.payload[o]);
        } else {
          assert o in s.payload && r.payload[o] == s.payload[o];
          assert RedactedFrom(h, pre, o, s.payload[o]);
          var i :| 0 <= i < |pre| && Base.IsValid(h.ty, pre[i])
            && ParseOid(pre[i].meta.value.id.value) == Some(o)
            && RedactWrite(h, pre[i]) == Ok(s.payload[o]);
          assert msgs[i] == pre[i];
        }
      }
    }
  }

  /**
   * When seeding rejects the call: `remove` on an id that is not an
   * ObjectId; `lookup` also on an invalid message; `update` also on any
   * valid message when the handler cannot redact writes.
   */
  lemma {:induction false} SeedFails(h: Handler, msgs: seq<Msg>, mode: SeedMode)
    ensures mode == ForRemove ==> (Seed(h, msgs, mode).Err? <==> exists i | 0 <= i < |msgs| :: BadId(h.ty, msgs[i]))
    ensures mode == ForLookup ==> (Seed(h, msgs, mode).Err? <==>
      exists i | 0 <= i < |msgs| :: !Base.IsValid(h.ty, msgs[i]) || BadId(h.ty, msgs[i]))
    ensures mode == ForUpdate ==> (Seed(h, msgs, mode).Err? <==>
      exists i | 0 <= i < |msgs| :: BadId(h.ty, msgs[i]) || (Base.IsValid(h.ty, msgs[i]) && h.policy.DenyAll?))
    ensures Seed(h, msgs, mode).Err? ==> FirstRejection(h, msgs, mode, Seed(h, msgs, mode).error)
  {
    if msgs != [] {
      var n := |msgs|;
      var pre := msgs[..n - 1];
      SeedFails(h, pre, mode);
      assert forall i | 0 <= i < |pre| :: msgs[i] == pre[i];
      if Seed(h, msgs, mode).Err? {
        if Seed(h, pre, mode).Err? {
          var i :| RejectedFirst(h, pre, mode, Seed(h, pre, mode).error, i);
          assert RejectedFirst(h, msgs, mode, Seed(h, msgs, mode).error, i);
        } else {
          forall j | 0 <= j < n - 1 ensures !Rejects(h, mode, msgs[j]) {
            assert msgs[j] == pre[j];
          }
          assert RejectedFirst(h, msgs, mode, Seed(h, msgs, mode).error, n - 1);
        }
      }
    }
  }

  /** Whether the seeding loop rejects the call on message `m`. */
  predicate Rejects(h: Handler, mode: SeedMode, m: Msg)
  {
    || (mode == ForLookup && !Base.IsValid(h.ty, m))
    || BadId(h.ty, m)
    || (mode == ForUpdate && Base.IsValid(h.ty, m) && h.policy.DenyAll?)
  }

  /**
   * Message `i` is the first the seeding loop rejects, and `e` is the error
   * that message gets: `MessageFail: malformed message` for an invalid
   * message in `lookup`, `MessageFail: malformed id` for an id that is not
   * an ObjectId, and the base handler's `NotImplemented` from `redactWrite`
   * for a valid `update` message with a well-formed id.
   */
  predicate RejectedFirst(h: Handler, msgs: seq<Msg>, mode: SeedMode, e: Error, i: int)
  {
    && 0 <= i < |msgs|
    && Rejects(h, mode, msgs[i])
    && (forall j | 0 <= j < i :: !Rejects(h, mode, msgs[j]))
    && (!Base.IsValid(h.ty, msgs[i]) ==> e == MalformedMessage)
    && (BadId(h.ty, msgs[i]) ==> e == MalformedId)
    && (Base.IsValid(h.ty, msgs[i]) && !BadId(h.ty, msgs[i]) ==> e == NotImplemented)
  }

  ghost predicate FirstRejection(h: Handler, msgs: seq<Msg>, mode: SeedMode, e: Error)
  {
    exists i :: RejectedFirst(h, msgs, mode, e, i)
  }

  // The per-record passes

  /** The state a per-record loop carries: the envelopes, the store's records, and the error that ended it. */
  datatype Pass = Pass(out: seq<Envelope>, docs: seq<Doc>, error: Option<Error>)

  /** The verb's answer once its per-record loop is over. */
  function Finish(p: Pass): (o: Outcome)
    ensures o.docs == p.docs && (o.r.Err? <==> p.error.Some?)
    ensures o.r.Ok? ==> o.r.value == p.out
    ensures o.r.Err? ==> o.r.error == p.error.value
  {
    if p.error.Some? then Outcome(Err(p.error.value), p.docs) else Outcome(Ok(p.out), p.docs)
  }

  /** What a verb resolves to, with the store it leaves behind. */
  datatype Outcome = Outcome(r: Result<seq<Envelope>, Error>, docs: seq<Doc>)

  predicate IndexFits(index: map<Oid, nat>, n: nat)
  {
    forall o | o in index :: index[o] < n
  }

  /** `findByOid(oids)`: the records with those ids that the filtered query returns and the actor may read. */
  function FoundFor(h: Handler, docs: seq<Doc>, oids: set<Oid>): Result<seq<Doc>, Error>
  {
    ReadFilter(h, Select(docs, FilteredSpec(h, IdsSpec(oids))))
  }

  /** Every record `findByOid` returns is stored, readable and asked for, and no two share an id. */
  lemma FoundForSound(h: Handler, docs: seq<Doc>, oids: set<Oid>)
    requires UniqueIds(docs) && FoundFor(h, docs, oids).Ok?
    ensures UniqueIds(FoundFor(h, docs, oids).value)
    ensures forall d | d in FoundFor(h, docs, oids).value :: d in docs && Readable(h, d) && d.id in oids
  {
    var selected := Select(docs, FilteredSpec(h, IdsSpec(oids)));
    ReadFilterMeaning(h, selected);
    FilterKeepsUniqueIds(selected, ReadableBy(h));
    forall d | d in selected ensures d.id in oids {
      FilteredSpecNarrows(h, IdsSpec(oids), d);
    }
  }

  /** The ids of the envelopes that satisfy `marked`. */
  function IdsOf(out: seq<Envelope>, marked: Envelope -> bool): set<string>
  {
    set i | 0 <= i < |out| && marked(out[i]) :: out[i].meta.id
  }

  lemma IdsOfUpdate(out: seq<Envelope>, marked: Envelope -> bool, k: nat, e: Envelope)
    requires k < |out| && !marked(out[k])
    ensures IdsOf(out[k := e], marked) == IdsOf(out, marked) + (if marked(e) then {e.meta.id} else {})
  {
    var out' := out[k := e];
    forall x | x in IdsOf(out', marked) ensures x in IdsOf(out, marked) + (if marked(e) then {e.meta.id} else {}) {
      var i :| 0 <= i < |out'| && marked(out'[i]) && out'[i].meta.id == x;
      if i != k {
        assert out[i] == out'[i];
      }
    }
    forall x | x in IdsOf(out, marked) ensures x in IdsOf(out', marked) {
      var i :| 0 <= i < |out| && marked(out[i]) && out[i].meta.id == x;
      assert out'[i] == out[i];
    }
    if marked(e) {
      assert out'[k] == e;
    }
  }

  predicate IsRemoval(e: Envelope)
  {
    e.meta.removed
  }

  /** The ids of the envelopes reporting a removal. */
  function RemovedIds(out: seq<Envelope>): set<string>
  {
    IdsOf(out, IsRemoval)
  }

  /** One round of `remove`'s loop over the found records. */
  function RemoveStep(h: Handler, fails: Oid -> bool, index: map<Oid, nat>, p: Pass, d: Doc): (q: Pass)
    requires IndexFits(index, |p.out|)
    ensures |q.out| == |p.out|
  {
    if p.error.Some? || d.id !in index then p
    else
      var k := index[d.id];
      match CanChange(h, d, d)
      case Err(e) => p.(error := Some(e))
      case Ok(allowed) =>
        if !allowed then p.(out := p.out[k := Base.WithError(p.out[k], PermissionFail)])
        else if fails(d.id) then p.(out := p.out[k := Base.WithError(p.out[k], BouncerFail)])
        else Pass(p.out[k := Base.Merged(p.out[k], h.ty, d, true)], Store.Without(p.docs, d.id), None)
  }

  function RemovePasses(h: Handler, fails: Oid -> bool, index: map<Oid, nat>, p: Pass, found: seq<Doc>): (q: Pass)
    requires IndexFits(index, |p.out|)
    ensures |q.out| == |p.out|
  {
    if found == [] then p
    else
      var n := |found|;
      RemoveStep(h, fails, index, RemovePasses(h, fails, index, p, found[..n - 1]), found[n - 1])
  }

  /** `remove(msgs)` on a store holding `docs`, whose deletes fail for the ids in `fails`. */
  function RemoveResult(h: Handler, docs: seq<Doc>, fails: Oid -> bool, msgs: seq<Msg>): Outcome
  {
    match Seed(h, msgs, ForRemove)
    case Err(e) => Outcome(Err(e), docs)
    case Ok(s) =>
      SeedShape(h, msgs, ForRemove);
      match FoundFor(h, docs, s.index.Keys)
      case Err(e) => Outcome(Err(e), docs)
      case Ok(found) =>
        Finish(RemovePasses(h, fails, s.index, Pass(s.out, docs, None), found))
  }

  /**
   * What `remove` may report for the message with id `id`: still `IdFail`,
   * or, for the stored record with that ObjectId, which the actor may read,
   * `PermissionFail` when it may not change it, `BouncerFail` when the delete
   * failed, or the record itself marked removed.
   */
  ghost predicate RemoveOutcome(h: Handler, docs0: seq<Doc>, fails: Oid -> bool, id: string, e: Envelope)
  {
    || e == Base.Seeded(h.ty, id)
    || exists d | d in docs0 && ParseOid(id) == Some(d.id) && Readable(h, d) ::
         || (CanChange(h, d, d) == Ok(false) && e == Base.WithError(Base.Seeded(h.ty, id), PermissionFail))
         || (CanChange(h, d, d) == Ok(true) && fails(d.id) && e == Base.WithError(Base.Seeded(h.ty, id), BouncerFail))
         || (CanChange(h, d, d) == Ok(true) && !fails(d.id) && e == Base.Fresh(h.ty, d, true))
  }

  ghost predicate RemoveInv(h: Handler, docs0: seq<Doc>, fails: Oid -> bool, s: Seeding, p: Pass, done: seq<Doc>)
  {
    && |p.out| == |s.out| && IndexFits(s.index, |s.out|)
    && (forall i | 0 <= i < |p.out| :: RemoveOutcome(h, docs0, fails, s.out[i].meta.id, p.out[i]))
    && (forall o | o in s.index && (forall x | x in done :: x.id != o) :: p.out[s.index[o]] == s.out[s.index[o]])
    && (forall i | 0 <= i < |p.out| && p.out[i].meta.removed :: exists x | x in done :: p.out[i].meta.id == x.id)
    && (forall x :: x in p.docs <==> x in docs0 && x.id !in RemovedIds(p.out))
  }

  /** Growing the processed prefix by a record the pass left alone keeps the invariant. */
  lemma RemoveInvSkip(h: Handler, docs0: seq<Doc>, fails: Oid -> bool, s: Seeding, p: Pass, done: seq<Doc>, d: Doc, err: Option<Error>)
    requires RemoveInv(h, docs0, fails, s, p, done)
    ensures RemoveInv(h, docs0, fails, s, p.(error := err), done + [d])
  {
    assert forall x | x in done :: x in done + [d];
  }

  /** The index of a well-formed seeding sends distinct ObjectIds to distinct envelopes. */
  lemma IndexDistinct(ty: string, s: Seeding, o: Oid, o': Oid)
    requires WellSeeded(ty, s) && o in s.index && o' in s.index && o != o'
    ensures s.index[o] != s.index[o']
  {
    assert ParseOid(s.out[s.index[o]].meta.id) == Some(o);
    assert ParseOid(s.out[s.index[o']].meta.id) == Some(o');
  }

  /** Rewriting the envelope of the record being processed, and deleting it when reported removed, keeps the invariant. */
  lemma RemoveInvMark(h: Handler, docs0: seq<Doc>, fails: Oid -> bool, s: Seeding, p: Pass, done: seq<Doc>, d: Doc, e: Envelope, docs': seq<Doc>)
    requires WellSeeded(h.ty, s) && RemoveInv(h, docs0, fails, s, p, done)
    requires d.id in s.index && forall x | x in done :: x.id != d.id
    requires RemoveOutcome(h, docs0, fails, s.out[s.index[d.id]].meta.id, e)
    requires IsRemoval(e) ==> e.meta.id == d.id
    requires forall x :: x in docs' <==> x in p.docs && !(IsRemoval(e) && x.id == d.id)
    ensures RemoveInv(h, docs0, fails, s, Pass(p.out[s.index[d.id] := e], docs', p.error), done + [d])
  {
    var k := s.index[d.id];
    var out' := p.out[k := e];
    assert p.out[k] == s.out[k];
    assert !IsRemoval(p.out[k]);
    RemoveMarkOutcomes(h, docs0, fails, s, p.out, k, e, out');
    MarkUntouched(h, s, p.out, done, d, e, out');
    RemoveMarkRemovedDone(p.out, done, k, d, e, out');
    IdsOfUpdate(p.out, IsRemoval, k, e);
  }

  lemma RemoveMarkOutcomes(h: Handler, docs0: seq<Doc>, fails: Oid -> bool, s: Seeding, out: seq<Envelope>, k: nat, e: Envelope, out': seq<Envelope>)
    requires |out| == |s.out| && k < |out| && out' == out[k := e]
    requires forall i | 0 <= i < |out| :: RemoveOutcome(h, docs0, fails, s.out[i].meta.id, out[i])
    requires RemoveOutcome(h, docs0, fails, s.out[k].meta.id, e)
    ensures forall i | 0 <= i < |out'| :: RemoveOutcome(h, docs0, fails, s.out[i].meta.id, out'[i])
  {
    forall i | 0 <= i < |out'| ensures RemoveOutcome(h, docs0, fails, s.out[i].meta.id, out'[i]) {
      if i != k {
        assert out'[i] == out[i];
      }
    }
  }

  /** Envelopes of ObjectIds not yet processed are still the seeded ones after the rewrite. */
  lemma MarkUntouched(h: Handler, s: Seeding, out: seq<Envelope>, done: seq<Doc>, d: Doc, e: Envelope, out': seq<Envelope>)
    requires WellSeeded(h.ty, s) && |out| == |s.out| && IndexFits(s.index, |s.out|) && d.id in s.index
    requires out' == out[s.index[d.id] := e]
    requires forall o | o in s.index && (forall x | x in done :: x.id != o) :: out[s.index[o]] == s.out[s.index[o]]
    ensures forall o | o in s.index && (forall x | x in done + [d] :: x.id != o) :: out'[s.index[o]] == s.out[s.index[o]]
  {
    var done' := done + [d];
    forall o | o in s.index && (forall x | x in done' :: x.id != o)
      ensures out'[s.index[o]] == s.out[s.index[o]]
    {
      assert d in done';
      assert forall x | x in done :: x in done';
      IndexDistinct(h.ty, s, o, d.id);
    }
  }

  /** An envelope reported removed names a processed record, also after the rewrite. */
  lemma RemoveMarkRemovedDone(out: seq<Envelope>, done: seq<Doc>, k: nat, d: Doc, e: Envelope, out': seq<Envelope>)
    requires k < |out| && out' == out[k := e] && (IsRemoval(e) ==> e.meta.id == d.id)
    requires forall i | 0 <= i < |out| && out[i].meta.removed :: exists x | x in done :: out[i].meta.id == x.id
    ensures forall i | 0 <= i < |out'| && out'[i].meta.removed :: exists x | x in done + [d] :: out'[i].meta.id == x.id
  {
    var done' := done + [d];
    forall i | 0 <= i < |out'| && out'[i].meta.removed
      ensures exists x | x in done' :: out'[i].meta.id == x.id
    {
      if i == k {
        assert d in done';
      } else {
        var x :| x in done && out[i].meta.id == x.id;
        assert x in done';
      }
    }
  }

  lemma RemoveStepKeepsInv(h: Handler, docs0: seq<Doc>, fails: Oid -> bool, s: Seeding, p: Pass, done: seq<Doc>, d: Doc)
    requires WellSeeded(h.ty, s) && RemoveInv(h, docs0, fails, s, p, done)
    requires d in docs0 && Readable(h, d) && forall x | x in done :: x.id != d.id
    ensures RemoveInv(h, docs0, fails, s, RemoveStep(h, fails, s.index, p, d), done + [d])
  {
    var q := RemoveStep(h, fails, s.index, p, d);
    if p.error.Some? || d.id !in s.index || CanChange(h, d, d).Err? {
      RemoveInvSkip(h, docs0, fails, s, p, done, d, q.error);
    } else {
      var k := s.index[d.id];
      var id := s.out[k].meta.id;
      assert p.out[k] == s.out[k] == Base.Seeded(h.ty, id);
      assert ParseOid(id) == Some(d.id);
      if CanChange(h, d, d) == Ok(true) && !fails(d.id) {
        Base.MergedSeeded(h.ty, id, d, true);
        assert q.out[k] == Base.Fresh(h.ty, d, true);
      }
      RemoveInvMark(h, docs0, fails, s, p, done, d, q.out[k], q.docs);
    }
  }

  lemma {:induction false} RemovePassesKeepInv(h: Handler, docs0: seq<Doc>, fails: Oid -> bool, s: Seeding, found: seq<Doc>)
    requires WellSeeded(h.ty, s) && UniqueIds(found)
    requires forall d | d in found :: d in docs0 && Readable(h, d)
    ensures IndexFits(s.index, |s.out|)
    ensures RemoveInv(h, docs0, fails, s, RemovePasses(h, fails, s.index, Pass(s.out, docs0, None), found), found)
  {
    if found == [] {
      assert RemovedIds(s.out) == {} by {
        forall i | 0 <= i < |s.out| ensures !IsRemoval(s.out[i]) { }
      }
    } else {
      var n := |found|;
      var pre := found[..n - 1];
      assert found == pre + [found[n - 1]];
      assert UniqueIds(pre);
      RemovePassesKeepInv(h, docs0, fails, s, pre);
      forall x | x in pre ensures x.id != found[n - 1].id {
        var i :| 0 <= i < |pre| && pre[i] == x;
      }
      RemoveStepKeepsInv(h, docs0, fails, s, RemovePasses(h, fails, s.index, Pass(s.out, docs0, None), pre), pre, found[n - 1]);
    }
  }

  /**
   * `remove` answers with one envelope per valid message, in input order:
   * still `IdFail`, `PermissionFail`, `BouncerFail`, or the removed record.
   * The store afterwards holds exactly the records it held before, less
   * those reported removed; a call that fails part-way has only deleted.
   */
  lemma {:induction false} RemoveMeaning(h: Handler, docs: seq<Doc>, fails: Oid -> bool, msgs: seq<Msg>)
    requires UniqueIds(docs)
    ensures var res := RemoveResult(h, docs, fails, msgs);
      && (res.r.Ok? ==> |res.r.value| == |Base.ValidIds(h.ty, msgs)|)
      && (res.r.Ok? ==> forall i | 0 <= i < |res.r.value| ::
            RemoveOutcome(h, docs, fails, Base.ValidIds(h.ty, msgs)[i], res.r.value[i]))
      && (res.r.Ok? ==> forall x :: x in res.docs <==> x in docs && x.id !in RemovedIds(res.r.value))
      && (forall x | x in res.docs :: x in docs)
  {
    var seeded := Seed(h, msgs, ForRemove);
    if seeded.Ok? {
      var s := seeded.value;
      SeedShape(h, msgs, ForRemove);
      var found := FoundFor(h, docs, s.index.Keys);
      if found.Ok? {
        FoundForSound(h, docs, s.index.Keys);
        RemovePassesKeepInv(h, docs, fails, s, found.value);
      }
    }
  }

  /** Envelopes at positions the index does not name (earlier duplicates of an ObjectId) are the seeded ones. */
  ghost predicate OffIndex(s: Seeding, out: seq<Envelope>)
    requires |out| == |s.out|
  {
    forall i | 0 <= i < |out| && i !in s.index.Values :: out[i] == s.out[i]
  }

  lemma OffIndexMark(s: Seeding, out: seq<Envelope>, o: Oid, e: Envelope, out': seq<Envelope>)
    requires |out| == |s.out| && IndexFits(s.index, |s.out|) && o in s.index && out' == out[s.index[o] := e]
    requires OffIndex(s, out)
    ensures OffIndex(s, out')
  {
    forall i | 0 <= i < |out'| && i !in s.index.Values ensures out'[i] == s.out[i] {
      assert i != s.index[o];
    }
  }

  /** What `remove` reports for a found record it has processed, given what `canChange` answered. */
  function RemoveReport(h: Handler, fails: Oid -> bool, seeded: Envelope, d: Doc): Envelope
    requires CanChange(h, d, d).Ok?
  {
    if !CanChange(h, d, d).value then Base.WithError(seeded, PermissionFail)
    else if fails(d.id) then Base.WithError(seeded, BouncerFail)
    else Base.Fresh(h.ty, d, true)
  }

  /** While no hook has thrown, each processed record has its report in its envelope, and is reported removed exactly when deleted. */
  ghost predicate RemoveLanded(h: Handler, fails: Oid -> bool, s: Seeding, p: Pass, done: seq<Doc>)
    requires |p.out| == |s.out| && IndexFits(s.index, |s.out|)
  {
    p.error.None? ==> RemoveReported(h, fails, s, p.out, done)
  }

  ghost predicate RemoveReported(h: Handler, fails: Oid -> bool, s: Seeding, out: seq<Envelope>, done: seq<Doc>)
    requires |out| == |s.out| && IndexFits(s.index, |s.out|)
  {
    forall x | x in done && x.id in s.index ::
      && CanChange(h, x, x).Ok?
      && out[s.index[x.id]] == RemoveReport(h, fails, s.out[s.index[x.id]], x)
      && (x.id in RemovedIds(out) <==> CanChange(h, x, x) == Ok(true) && !fails(x.id))
  }

  /** Writing a record's report into its envelope keeps every earlier report, and adds its own. */
  lemma RemoveReportedMark(h: Handler, fails: Oid -> bool, s: Seeding, out: seq<Envelope>, done: seq<Doc>, d: Doc, out': seq<Envelope>)
    requires WellSeeded(h.ty, s) && |out| == |s.out| && d.id in s.index && CanChange(h, d, d).Ok?
    requires RemoveReported(h, fails, s, out, done) && forall x | x in done :: x.id != d.id
    requires !IsRemoval(out[s.index[d.id]]) && d.id !in RemovedIds(out)
    requires out' == out[s.index[d.id] := RemoveReport(h, fails, s.out[s.index[d.id]], d)]
    ensures RemoveReported(h, fails, s, out', done + [d])
  {
    var k := s.index[d.id];
    var e := RemoveReport(h, fails, s.out[k], d);
    IdsOfUpdate(out, IsRemoval, k, e);
    forall x | x in done + [d] && x.id in s.index
      ensures && CanChange(h, x, x).Ok?
              && out'[s.index[x.id]] == RemoveReport(h, fails, s.out[s.index[x.id]], x)
              && (x.id in RemovedIds(out') <==> CanChange(h, x, x) == Ok(true) && !fails(x.id))
    {
      if x != d {
        assert x in done;
        IndexDistinct(h.ty, s, x.id, d.id);
      }
    }
  }

  /** What the invariant says about a record not yet processed: its envelope is the seeded one, and its id is not reported removed. */
  lemma RemoveInvFresh(h: Handler, docs0: seq<Doc>, fails: Oid -> bool, s: Seeding, p: Pass, done: seq<Doc>, d: Doc)
    requires RemoveInv(h, docs0, fails, s, p, done) && forall x | x in done :: x.id != d.id
    ensures |p.out| == |s.out| && IndexFits(s.index, |s.out|)
    ensures d.id in s.index ==> p.out[s.index[d.id]] == s.out[s.index[d.id]] && d.id !in RemovedIds(p.out)
  {
  }

  lemma RemoveStepLands(h: Handler, fails: Oid -> bool, s: Seeding, p: Pass, done: seq<Doc>, d: Doc)
    requires WellSeeded(h.ty, s) && |p.out| == |s.out| && IndexFits(s.index, |s.out|)
    requires RemoveLanded(h, fails, s, p, done) && OffIndex(s, p.out)
    requires forall x | x in done :: x.id != d.id
    requires d.id in s.index ==> p.out[s.index[d.id]] == s.out[s.index[d.id]] && d.id !in RemovedIds(p.out)
    ensures RemoveLanded(h, fails, s, RemoveStep(h, fails, s.index, p, d), done + [d])
    ensures OffIndex(s, RemoveStep(h, fails, s.index, p, d).out)
  {
    var q := RemoveStep(h, fails, s.index, p, d);
    if p.error.Some? || CanChange(h, d, d).Err? {
    } else if d.id !in s.index {
      assert forall x | x in done + [d] && x.id in s.index :: x in done;
    } else {
      var k := s.index[d.id];
      assert p.out[k] == s.out[k] == Base.Seeded(h.ty, s.out[k].meta.id);
      if CanChange(h, d, d) == Ok(true) && !fails(d.id) {
        Base.MergedSeeded(h.ty, s.out[k].meta.id, d, true);
      }
      assert q.out == p.out[k := RemoveReport(h, fails, s.out[k], d)];
      OffIndexMark(s, p.out, d.id, q.out[k], q.out);
      RemoveReportedMark(h, fails, s, p.out, done, d, q.out);
    }
  }

  lemma {:induction false} RemovePassesLand(h: Handler, docs0: seq<Doc>, fails: Oid -> bool, s: Seeding, found: seq<Doc>)
    requires WellSeeded(h.ty, s) && UniqueIds(found)
    requires forall d | d in found :: d in docs0 && Readable(h, d)
    ensures IndexFits(s.index, |s.out|)
    ensures RemoveLanded(h, fails, s, RemovePasses(h, fails, s.index, Pass(s.out, docs0, None), found), found)
    ensures OffIndex(s, RemovePasses(h, fails, s.index, Pass(s.out, docs0, None), found).out)
  {
    if found != [] {
      var n := |found|;
      var pre := found[..n - 1];
      assert found == pre + [found[n - 1]];
      assert UniqueIds(pre);
      RemovePassesLand(h, docs0, fails, s, pre);
      RemovePassesKeepInv(h, docs0, fails, s, pre);
      forall x | x in pre ensures x.id != found[n - 1].id {
        var i :| 0 <= i < |pre| && pre[i] == x;
      }
      var p := RemovePasses(h, fails, s.index, Pass(s.out, docs0, None), pre);
      RemoveInvFresh(h, docs0, fails, s, p, pre, found[n - 1]);
      RemoveStepLands(h, fails, s, p, pre, found[n - 1]);
    }
  }

  /**
   * When `remove` answers, every record `findByOid` returned has its report
   * in the envelope seeded last for its ObjectId: `PermissionFail` when the
   * actor may not change it, `BouncerFail` when the delete failed (the record
   * stays), and otherwise the record marked removed (and it is gone from the
   * store). Every other envelope is the seeded `IdFail` one.
   */
  lemma {:induction false} RemoveComplete(h: Handler, docs: seq<Doc>, fails: Oid -> bool, msgs: seq<Msg>, s: Seeding, found: seq<Doc>)
    requires UniqueIds(docs) && Seed(h, msgs, ForRemove) == Ok(s) && FoundFor(h, docs, s.index.Keys) == Ok(found)
    requires RemoveResult(h, docs, fails, msgs).r.Ok?
    ensures LastSeeded(s) && IndexFits(s.index, |s.out|)
    ensures |RemoveResult(h, docs, fails, msgs).r.value| == |s.out|
    ensures forall d | d in found :: d.id in s.index && CanChange(h, d, d).Ok?
    ensures var res := RemoveResult(h, docs, fails, msgs);
      forall d | d in found && d.id in s.index ::
        var e := res.r.value[s.index[d.id]];
        && (CanChange(h, d, d) == Ok(false) ==> e == Base.WithError(s.out[s.index[d.id]], PermissionFail) && d in res.docs)
        && (CanChange(h, d, d) == Ok(true) && fails(d.id) ==> e == Base.WithError(s.out[s.index[d.id]], BouncerFail) && d in res.docs)
        && (CanChange(h, d, d) == Ok(true) && !fails(d.id) ==> e == Base.Fresh(h.ty, d, true) && d !in res.docs)
    ensures var res := RemoveResult(h, docs, fails, msgs);
      forall i | 0 <= i < |s.out| && (forall d | d in found && d.id in s.index :: s.index[d.id] != i) :: res.r.value[i] == s.out[i]
  {
    SeedShape(h, msgs, ForRemove);
    FoundForSound(h, docs, s.index.Keys);
    RemovePassesKeepInv(h, docs, fails, s, found);
    RemovePassesLand(h, docs, fails, s, found);
    var p := RemovePasses(h, fails, s.index, Pass(s.out, docs, None), found);
    var res := RemoveResult(h, docs, fails, msgs);
    assert res == Finish(p);
    forall i | 0 <= i < |s.out| && (forall d | d in found && d.id in s.index :: s.index[d.id] != i)
      ensures res.r.value[i] == s.out[i]
    {
      if i in s.index.Values {
        var o :| o in s.index && s.index[o] == i;
        assert forall x | x in found :: x.id != o;
      }
    }
  }

  /** The stored record with a payload assigned over it (`Object.assign(mgoMsg, inMsg)`). */
  function Patched(d: Doc, payload: map<string, Value>): (r: Doc)
    ensures r.id == d.id && r.version == d.version
    ensures forall k :: k in r.body <==> k in d.body || k in payload
  {
    Doc(d.id, d.version, d.body + payload)
  }

  /** The patched record as saved: one revision later. */
  function Saved(d: Doc, payload: map<string, Value>): (r: Doc)
    ensures r.id == d.id && r.version == d.version + 1 && r.body == Patched(d, payload).body
  {
    Patched(d, payload).(version := d.version + 1)
  }

  /** One round of `update`'s loop over the found records. */
  function UpdateStep(h: Handler, fails: Oid -> bool, s: Seeding, p: Pass, d: Doc): (q: Pass)
    requires IndexFits(s.index, |p.out|)
    ensures |q.out| == |p.out|
  {
    if p.error.Some? || d.id !in s.payload || d.id !in s.index then p
    else
      var k := s.index[d.id];
      match CanChange(h, d, Patched(d, s.payload[d.id]))
      case Err(e) => p.(error := Some(e))
      case Ok(allowed) =>
        if !allowed then p.(out := p.out[k := Base.WithError(p.out[k], PermissionFail)])
        else
          var saved := Saved(d, s.payload[d.id]);
          if !fails(d.id) && Store.HasVersion(p.docs, d.id, d.version) then
            Pass(p.out[k := Base.Merged(p.out[k], h.ty, saved, false)], Store.Replaced(p.docs, saved), None)
          else p.(out := p.out[k := Base.WithError(p.out[k], BouncerFail)])
  }

  function UpdatePasses(h: Handler, fails: Oid -> bool, s: Seeding, p: Pass, found: seq<Doc>): (q: Pass)
    requires IndexFits(s.index, |p.out|)
    ensures |q.out| == |p.out|
  {
    if found == [] then p
    else
      var n := |found|;
      UpdateStep(h, fails, s, UpdatePasses(h, fails, s, p, found[..n - 1]), found[n - 1])
  }

  /** `update(msgs)` on a store holding `docs`, whose saves fail for the ids in `fails`. */
  function UpdateResult(h: Handler, docs: seq<Doc>, fails: Oid -> bool, msgs: seq<Msg>): Outcome
  {
    match Seed(h, msgs, ForUpdate)
    case Err(e) => Outcome(Err(e), docs)
    case Ok(s) =>
      SeedShape(h, msgs, ForUpdate);
      match FoundFor(h, docs, s.index.Keys)
      case Err(e) => Outcome(Err(e), docs)
      case Ok(found) =>
        Finish(UpdatePasses(h, fails, s, Pass(s.out, docs, None), found))
  }

  predicate IsSave(e: Envelope)
  {
    e.meta.version.Some?
  }

  /** The ids of the envelopes reporting a save. */
  function UpdatedIds(out: seq<Envelope>): set<string>
  {
    IdsOf(out, IsSave)
  }

  /**
   * What `update` may report in envelope `i`: still `IdFail`, or, when it is
   * the last envelope seeded for a stored record the actor may read,
   * `PermissionFail` when the actor may not change the record into its patched
   * form, `BouncerFail` when the save failed, or the saved record.
   */
  ghost predicate UpdateOutcome(h: Handler, docs0: seq<Doc>, fails: Oid -> bool, s: Seeding, i: nat, e: Envelope)
    requires i < |s.out|
  {
    || e == s.out[i]
    || exists d | d in docs0 && d.id in s.index && s.index[d.id] == i && d.id in s.payload && Readable(h, d) ::
         || (CanChange(h, d, Patched(d, s.payload[d.id])) == Ok(false) && e == Base.WithError(s.out[i], PermissionFail))
         || (CanChange(h, d, Patched(d, s.payload[d.id])) == Ok(true) && fails(d.id) && e == Base.WithError(s.out[i], BouncerFail))
         || (CanChange(h, d, Patched(d, s.payload[d.id])) == Ok(true) && !fails(d.id) && e == Base.Fresh(h.ty, Saved(d, s.payload[d.id]), false))
  }

  /** The store after saving the records whose ids are in `saved`. */
  ghost predicate SavedOnly(docs0: seq<Doc>, s: Seeding, saved: set<string>, docs: seq<Doc>)
  {
    && |docs| == |docs0|
    && forall j | 0 <= j < |docs0| ::
         docs[j] == if docs0[j].id in saved && docs0[j].id in s.payload then Saved(docs0[j], s.payload[docs0[j].id]) else docs0[j]
  }

  ghost predicate UpdateInv(h: Handler, docs0: seq<Doc>, fails: Oid -> bool, s: Seeding, p: Pass, done: seq<Doc>)
  {
    && |p.out| == |s.out| && IndexFits(s.index, |s.out|)
    && (forall i | 0 <= i < |p.out| :: UpdateOutcome(h, docs0, fails, s, i, p.out[i]))
    && (forall o | o in s.index && (forall x | x in done :: x.id != o) :: p.out[s.index[o]] == s.out[s.index[o]])
    && (forall i | 0 <= i < |p.out| && IsSave(p.out[i]) :: exists x | x in done :: p.out[i].meta.id == x.id)
    && SavedOnly(docs0, s, UpdatedIds(p.out), p.docs)
  }

  lemma UpdateInvSkip(h: Handler, docs0: seq<Doc>, fails: Oid -> bool, s: Seeding, p: Pass, done: seq<Doc>, d: Doc, err: Option<Error>)
    requires UpdateInv(h, docs0, fails, s, p, done)
    ensures UpdateInv(h, docs0, fails, s, p.(error := err), done + [d])
  {
    assert forall x | x in done :: x in done + [d];
  }

  lemma UpdateInvMark(h: Handler, docs0: seq<Doc>, fails: Oid -> bool, s: Seeding, p: Pass, done: seq<Doc>, d: Doc, e: Envelope, docs': seq<Doc>)
    requires WellSeeded(h.ty, s) && UpdateInv(h, docs0, fails, s, p, done)
    requires d.id in s.index && forall x | x in done :: x.id != d.id
    requires UpdateOutcome(h, docs0, fails, s, s.index[d.id], e)
    requires IsSave(e) ==> e.meta.id == d.id
    requires SavedOnly(docs0, s, UpdatedIds(p.out) + (if IsSave(e) then {d.id} else {}), docs')
    ensures UpdateInv(h, docs0, fails, s, Pass(p.out[s.index[d.id] := e], docs', p.error), done + [d])
  {
    var k := s.index[d.id];
    var done' := done + [d];
    var q := Pass(p.out[k := e], docs', p.error);
    assert p.out[k] == s.out[k];
    assert !IsSave(p.out[k]);
    forall o | o in s.index && o != d.id ensures s.index[o] != k {
      assert ParseOid(s.out[s.index[o]].meta.id) == Some(o);
      assert ParseOid(s.out[k].meta.id) == Some(d.id);
    }
    forall i | 0 <= i < |q.out| ensures UpdateOutcome(h, docs0, fails, s, i, q.out[i]) {
      if i != k {
        assert q.out[i] == p.out[i];
      }
    }
    forall o | o in s.index && (forall x | x in done' :: x.id != o) ensures q.out[s.index[o]] == s.out[s.index[o]] {
      assert d in done';
      assert forall x | x in done :: x in done';
    }
    forall i | 0 <= i < |q.out| && IsSave(q.out[i]) ensures exists x | x in done' :: q.out[i].meta.id == x.id {
      if i == k {
        assert d in done';
      } else {
        assert q.out[i] == p.out[i];
        var x :| x in done && p.out[i].meta.id == x.id;
        assert x in done';
      }
    }
    IdsOfUpdate(p.out, IsSave, k, e);
  }

  /** Saving the record with `d`'s id over a store in the invariant's shape adds that id to the saved ones. */
  lemma SaveKeepsShape(docs0: seq<Doc>, s: Seeding, saved: set<string>, docs: seq<Doc>, d: Doc)
    requires UniqueIds(docs0) && SavedOnly(docs0, s, saved, docs)
    requires d in docs0 && d.id !in saved && d.id in s.payload
    ensures Store.HasVersion(docs, d.id, d.version)
    ensures SavedOnly(docs0, s, saved + {d.id}, Store.Replaced(docs, Saved(d, s.payload[d.id])))
  {
    var j :| 0 <= j < |docs0| && docs0[j] == d;
    assert docs[j] == d;
    var r := Store.Replaced(docs, Saved(d, s.payload[d.id]));
    forall i | 0 <= i < |docs0|
      ensures r[i] == if docs0[i].id in saved + {d.id} && docs0[i].id in s.payload then Saved(docs0[i], s.payload[docs0[i].id]) else docs0[i]
    {
      assert docs[i].id == docs0[i].id;
      if docs0[i].id == d.id {
        assert i == j;
      }
    }
  }

  lemma UpdateStepKeepsInv(h: Handler, docs0: seq<Doc>, fails: Oid -> bool, s: Seeding, p: Pass, done: seq<Doc>, d: Doc)
    requires UniqueIds(docs0) && WellSeeded(h.ty, s) && UpdateInv(h, docs0, fails, s, p, done)
    requires d in docs0 && Readable(h, d) && forall x | x in done :: x.id != d.id
    ensures UpdateInv(h, docs0, fails, s, UpdateStep(h, fails, s, p, d), done + [d])
  {
    var q := UpdateStep(h, fails, s, p, d);
    if p.error.Some? || d.id !in s.payload || d.id !in s.index || CanChange(h, d, Patched(d, s.payload[d.id])).Err? {
      UpdateInvSkip(h, docs0, fails, s, p, done, d, q.error);
    } else {
      var k := s.index[d.id];
      var id := s.out[k].meta.id;
      assert p.out[k] == s.out[k] == Base.Seeded(h.ty, id);
      assert d.id !in UpdatedIds(p.out);
      var saved := Saved(d, s.payload[d.id]);
      SaveKeepsShape(docs0, s, UpdatedIds(p.out), p.docs, d);
      if CanChange(h, d, Patched(d, s.payload[d.id])) == Ok(true) && !fails(d.id) {
        Base.MergedSeeded(h.ty, id, saved, false);
        assert q.out[k] == Base.Fresh(h.ty, saved, false);
      }
      UpdateInvMark(h, docs0, fails, s, p, done, d, q.out[k], q.docs);
    }
  }

  lemma {:induction false} UpdatePassesKeepInv(h: Handler, docs0: seq<Doc>, fails: Oid -> bool, s: Seeding, found: seq<Doc>)
    requires UniqueIds(docs0) && WellSeeded(h.ty, s) && UniqueIds(found)
    requires forall d | d in found :: d in docs0 && Readable(h, d)
    ensures IndexFits(s.index, |s.out|)
    ensures UpdateInv(h, docs0, fails, s, UpdatePasses(h, fails, s, Pass(s.out, docs0, None), found), found)
  {
    if found == [] {
      assert UpdatedIds(s.out) == {} by {
        forall i | 0 <= i < |s.out| ensures !IsSave(s.out[i]) { }
      }
    } else {
      var n := |found|;
      var pre := found[..n - 1];
      assert found == pre + [found[n - 1]];
      assert UniqueIds(pre);
      UpdatePassesKeepInv(h, docs0, fails, s, pre);
      forall x | x in pre ensures x.id != found[n - 1].id {
        var i :| 0 <= i < |pre| && pre[i] == x;
      }
      UpdateStepKeepsInv(h, docs0, fails, s, UpdatePasses(h, fails, s, Pass(s.out, docs0, None), pre), pre, found[n - 1]);
    }
  }

  /**
   * `update` answers with one envelope per valid message, in input order,
   * each still `IdFail`, `PermissionFail`, `BouncerFail` or the saved record
   * one revision later. The store keeps its records in place: those reported
   * saved hold the patched body and the next revision, every other one is
   * unchanged, also when the call fails part-way.
   */
  lemma {:induction false} UpdateMeaning(h: Handler, docs: seq<Doc>, fails: Oid -> bool, msgs: seq<Msg>)
    requires UniqueIds(docs)
    ensures var res := UpdateResult(h, docs, fails, msgs);
      && (res.r.Ok? ==>
            && Seed(h, msgs, ForUpdate).Ok?
            && |res.r.value| == |Base.ValidIds(h.ty, msgs)| == |Seed(h, msgs, ForUpdate).value.out|
            && forall i | 0 <= i < |res.r.value| :: UpdateOutcome(h, docs, fails, Seed(h, msgs, ForUpdate).value, i, res.r.value[i]))
      && (res.r.Ok? ==> SavedOnly(docs, Seed(h, msgs, ForUpdate).value, UpdatedIds(res.r.value), res.docs))
      && |res.docs| == |docs|
      && (forall j | 0 <= j < |docs| :: res.docs[j].id == docs[j].id
            && (res.docs[j] == docs[j] || res.docs[j].version == docs[j].version + 1))
  {
    var seeded := Seed(h, msgs, ForUpdate);
    if seeded.Ok? {
      var s := seeded.value;
      SeedShape(h, msgs, ForUpdate);
      var found := FoundFor(h, docs, s.index.Keys);
      if found.Ok? {
        FoundForSound(h, docs, s.index.Keys);
        UpdatePassesKeepInv(h, docs, fails, s, found.value);
        var p := UpdatePasses(h, fails, s, Pass(s.out, docs, None), found.value);
        assert UpdateResult(h, docs, fails, msgs) == Finish(p);
      }
    }
  }

  /** What `update` reports for a found record it has processed, given what `canChange` answered on its patched form. */
  function UpdateReport(h: Handler, fails: Oid -> bool, seeded: Envelope, d: Doc, payload: map<string, Value>): Envelope
    requires CanChange(h, d, Patched(d, payload)).Ok?
  {
    if !CanChange(h, d, Patched(d, payload)).value then Base.WithError(seeded, PermissionFail)
    else if fails(d.id) then Base.WithError(seeded, BouncerFail)
    else Base.Fresh(h.ty, Saved(d, payload), false)
  }

  /** While no hook has thrown, each processed record has its report in its envelope, and is reported saved exactly when saved. */
  ghost predicate UpdateLanded(h: Handler, fails: Oid -> bool, s: Seeding, p: Pass, done: seq<Doc>)
    requires |p.out| == |s.out| && IndexFits(s.index, |s.out|)
  {
    p.error.None? ==> UpdateReported(h, fails, s, p.out, done)
  }

  ghost predicate UpdateReported(h: Handler, fails: Oid -> bool, s: Seeding, out: seq<Envelope>, done: seq<Doc>)
    requires |out| == |s.out| && IndexFits(s.index, |s.out|)
  {
    forall x | x in done && x.id in s.index && x.id in s.payload ::
      && CanChange(h, x, Patched(x, s.payload[x.id])).Ok?
      && out[s.index[x.id]] == UpdateReport(h, fails, s.out[s.index[x.id]], x, s.payload[x.id])
      && (x.id in UpdatedIds(out) <==> CanChange(h, x, Patched(x, s.payload[x.id])) == Ok(true) && !fails(x.id))
  }

  lemma UpdateReportedMark(h: Handler, fails: Oid -> bool, s: Seeding, out: seq<Envelope>, done: seq<Doc>, d: Doc, out': seq<Envelope>)
    requires WellSeeded(h.ty, s) && |out| == |s.out| && d.id in s.index && d.id in s.payload
    requires CanChange(h, d, Patched(d, s.payload[d.id])).Ok?
    requires UpdateReported(h, fails, s, out, done) && forall x | x in done :: x.id != d.id
    requires !IsSave(out[s.index[d.id]]) && d.id !in UpdatedIds(out)
    requires out' == out[s.index[d.id] := UpdateReport(h, fails, s.out[s.index[d.id]], d, s.payload[d.id])]
    ensures UpdateReported(h, fails, s, out', done + [d])
  {
    var k := s.index[d.id];
    var e := UpdateReport(h, fails, s.out[k], d, s.payload[d.id]);
    IdsOfUpdate(out, IsSave, k, e);
    forall x | x in done + [d] && x.id in s.index && x.id in s.payload
      ensures && CanChange(h, x, Patched(x, s.payload[x.id])).Ok?
              && out'[s.index[x.id]] == UpdateReport(h, fails, s.out[s.index[x.id]], x, s.payload[x.id])
              && (x.id in UpdatedIds(out') <==> CanChange(h, x, Patched(x, s.payload[x.id])) == Ok(true) && !fails(x.id))
    {
      if x != d {
        assert x in done;
        IndexDistinct(h.ty, s, x.id, d.id);
      }
    }
  }

  /** What the invariant says about a record not yet processed: its envelope is the seeded one, it is not reported saved, and the store still has it at its revision. */
  lemma UpdateInvFresh(h: Handler, docs0: seq<Doc>, fails: Oid -> bool, s: Seeding, p: Pass, done: seq<Doc>, d: Doc)
    requires UniqueIds(docs0) && UpdateInv(h, docs0, fails, s, p, done)
    requires d in docs0 && forall x | x in done :: x.id != d.id
    ensures |p.out| == |s.out| && IndexFits(s.index, |s.out|)
    ensures d.id in s.index ==> p.out[s.index[d.id]] == s.out[s.index[d.id]] && d.id !in UpdatedIds(p.out)
    ensures d.id in s.index && d.id in s.payload ==> Store.HasVersion(p.docs, d.id, d.version)
  {
    if d.id in s.index && d.id in s.payload {
      assert d.id !in UpdatedIds(p.out);
      SaveKeepsShape(docs0, s, UpdatedIds(p.out), p.docs, d);
    }
  }

  lemma UpdateStepLands(h: Handler, fails: Oid -> bool, s: Seeding, p: Pass, done: seq<Doc>, d: Doc)
    requires WellSeeded(h.ty, s) && |p.out| == |s.out| && IndexFits(s.index, |s.out|)
    requires UpdateLanded(h, fails, s, p, done) && OffIndex(s, p.out)
    requires forall x | x in done :: x.id != d.id
    requires d.id in s.index ==> p.out[s.index[d.id]] == s.out[s.index[d.id]] && d.id !in UpdatedIds(p.out)
    requires d.id in s.index && d.id in s.payload ==> Store.HasVersion(p.docs, d.id, d.version)
    ensures UpdateLanded(h, fails, s, UpdateStep(h, fails, s, p, d), done + [d])
    ensures OffIndex(s, UpdateStep(h, fails, s, p, d).out)
  {
    var q := UpdateStep(h, fails, s, p, d);
    if p.error.Some? {
    } else if d.id !in s.index || d.id !in s.payload {
      assert forall x | x in done + [d] && x.id in s.index && x.id in s.payload :: x in done;
    } else if CanChange(h, d, Patched(d, s.payload[d.id])).Err? {
    } else {
      var k := s.index[d.id];
      assert p.out[k] == s.out[k] == Base.Seeded(h.ty, s.out[k].meta.id);
      if CanChange(h, d, Patched(d, s.payload[d.id])) == Ok(true) && !fails(d.id) {
        Base.MergedSeeded(h.ty, s.out[k].meta.id, Saved(d, s.payload[d.id]), false);
      }
      assert q.out == p.out[k := UpdateReport(h, fails, s.out[k], d, s.payload[d.id])];
      OffIndexMark(s, p.out, d.id, q.out[k], q.out);
      UpdateReportedMark(h, fails, s, p.out, done, d, q.out);
    }
  }

  lemma {:induction false} UpdatePassesLand(h: Handler, docs0: seq<Doc>, fails: Oid -> bool, s: Seeding, found: seq<Doc>)
    requires UniqueIds(docs0) && WellSeeded(h.ty, s) && UniqueIds(found)
    requires forall d | d in found :: d in docs0 && Readable(h, d)
    ensures IndexFits(s.index, |s.out|)
    ensures UpdateLanded(h, fails, s, UpdatePasses(h, fails, s, Pass(s.out, docs0, None), found), found)
    ensures OffIndex(s, UpdatePasses(h, fails, s, Pass(s.out, docs0, None), found).out)
  {
    if found != [] {
      var n := |found|;
      var pre := found[..n - 1];
      assert found == pre + [found[n - 1]];
      assert UniqueIds(pre);
      UpdatePassesLand(h, docs0, fails, s, pre);
      UpdatePassesKeepInv(h, docs0, fails, s, pre);
      forall x | x in pre ensures x.id != found[n - 1].id {
        var i :| 0 <= i < |pre| && pre[i] == x;
      }
      var p := UpdatePasses(h, fails, s, Pass(s.out, docs0, None), pre);
      UpdateInvFresh(h, docs0, fails, s, p, pre, found[n - 1]);
      UpdateStepLands(h, fails, s, p, pre, found[n - 1]);
    }
  }

  /**
   * When `update` answers, every record `findByOid` returned has its report
   * in the envelope seeded last for its ObjectId: `PermissionFail` when the
   * actor may not change it into its patched form, `BouncerFail` when the
   * save failed, and otherwise the patched record one revision later, which
   * the store now holds in the record's place. Every other envelope is the
   * seeded `IdFail` one.
   */
  lemma {:induction false} UpdateComplete(h: Handler, docs: seq<Doc>, fails: Oid -> bool, msgs: seq<Msg>, s: Seeding, found: seq<Doc>)
    requires UniqueIds(docs) && Seed(h, msgs, ForUpdate) == Ok(s) && FoundFor(h, docs, s.index.Keys) == Ok(found)
    requires UpdateResult(h, docs, fails, msgs).r.Ok?
    ensures LastSeeded(s) && IndexFits(s.index, |s.out|)
    ensures |UpdateResult(h, docs, fails, msgs).r.value| == |s.out| && |UpdateResult(h, docs, fails, msgs).docs| == |docs|
    ensures forall d | d in found :: d.id in s.index && d.id in s.payload && CanChange(h, d, Patched(d, s.payload[d.id])).Ok?
    ensures var res := UpdateResult(h, docs, fails, msgs);
      forall d | d in found && d.id in s.index && d.id in s.payload ::
        var e := res.r.value[s.index[d.id]];
        var allowed := CanChange(h, d, Patched(d, s.payload[d.id]));
        && (allowed == Ok(false) ==> e == Base.WithError(s.out[s.index[d.id]], PermissionFail))
        && (allowed == Ok(true) && fails(d.id) ==> e == Base.WithError(s.out[s.index[d.id]], BouncerFail))
        && (allowed == Ok(true) && !fails(d.id) ==> e == Base.Fresh(h.ty, Saved(d, s.payload[d.id]), false))
    ensures var res := UpdateResult(h, docs, fails, msgs);
      forall j | 0 <= j < |docs| && |res.docs| == |docs| && docs[j] in found && docs[j].id in s.payload ::
        res.docs[j] == if CanChange(h, docs[j], Patched(docs[j], s.payload[docs[j].id])) == Ok(true) && !fails(docs[j].id)
                       then Saved(docs[j], s.payload[docs[j].id]) else docs[j]
    ensures var res := UpdateResult(h, docs, fails, msgs);
      forall i | 0 <= i < |s.out| && (forall d | d in found && d.id in s.index :: s.index[d.id] != i) :: res.r.value[i] == s.out[i]
  {
    SeedShape(h, msgs, ForUpdate);
    SeedPayload(h, msgs);
    FoundForSound(h, docs, s.index.Keys);
    UpdatePassesKeepInv(h, docs, fails, s, found);
    UpdatePassesLand(h, docs, fails, s, found);
    var p := UpdatePasses(h, fails, s, Pass(s.out, docs, None), found);
    var res := UpdateResult(h, docs, fails, msgs);
    assert res == Finish(p);
    forall i | 0 <= i < |s.out| && (forall d | d in found && d.id in s.index :: s.index[d.id] != i)
      ensures res.r.value[i] == s.out[i]
    {
      if i in s.index.Values {
        var o :| o in s.index && s.index[o] == i;
        assert forall x | x in found :: x.id != o;
      }
    }
  }

  /** One round of `lookup`'s loop: a found record overwrites the envelope last seeded for its id. */
  function LookupStep(ty: string, index: map<Oid, nat>, out: seq<Envelope>, d: Doc): (r: seq<Envelope>)
    requires IndexFits(index, |out|)
    ensures |r| == |out|
  {
    if d.id in index then out[index[d.id] := Base.Merged(out[index[d.id]], ty, d, false)] else out
  }

  function LookupPasses(ty: string, index: map<Oid, nat>, out: seq<Envelope>, found: seq<Doc>): (r: seq<Envelope>)
    requires IndexFits(index, |out|)
    ensures |r| == |out|
  {
    if found == [] then out
    else
      var n := |found|;
      LookupStep(ty, index, LookupPasses(ty, index, out, found[..n - 1]), found[n - 1])
  }

  /** `lookup(msgs)` on a store holding `docs`. */
  function LookupResult(h: Handler, docs: seq<Doc>, msgs: seq<Msg>): Result<seq<Envelope>, Error>
  {
    match Seed(h, msgs, ForLookup)
    case Err(e) => Err(e)
    case Ok(s) =>
      SeedShape(h, msgs, ForLookup);
      match FoundFor(h, docs, s.index.Keys)
      case Err(e) => Err(e)
      case Ok(found) => Ok(LookupPasses(h.ty, s.index, s.out, found))
  }

  ghost predicate LookupInv(h: Handler, docs0: seq<Doc>, s: Seeding, out: seq<Envelope>, done: seq<Doc>)
  {
    && |out| == |s.out| && IndexFits(s.index, |s.out|)
    && FromStore(h, docs0, s, out)
    && Untouched(s, out, done)
    && LandedAll(h, s, out, done)
  }

  /** Each envelope is still the seeded one, or a readable stored record with the envelope's ObjectId. */
  ghost predicate FromStore(h: Handler, docs0: seq<Doc>, s: Seeding, out: seq<Envelope>)
    requires |out| == |s.out|
  {
    forall i | 0 <= i < |out| ::
      (out[i] == s.out[i] ||
       exists d | d in docs0 && Readable(h, d) && ParseOid(s.out[i].meta.id) == Some(d.id) :: out[i] == Base.Fresh(h.ty, d, false))
  }

  /** The envelopes of ObjectIds no processed record has are the seeded ones. */
  ghost predicate Untouched(s: Seeding, out: seq<Envelope>, done: seq<Doc>)
    requires |out| == |s.out| && IndexFits(s.index, |s.out|)
  {
    forall o | o in s.index && (forall x | x in done :: x.id != o) :: out[s.index[o]] == s.out[s.index[o]]
  }

  /** Each processed record sits in the envelope its ObjectId indexes. */
  ghost predicate LandedAll(h: Handler, s: Seeding, out: seq<Envelope>, done: seq<Doc>)
    requires |out| == |s.out| && IndexFits(s.index, |s.out|)
  {
    forall x | x in done && x.id in s.index :: out[s.index[x.id]] == Base.Fresh(h.ty, x, false)
  }

  lemma LookupStepKeepsInv(h: Handler, docs0: seq<Doc>, s: Seeding, out: seq<Envelope>, done: seq<Doc>, d: Doc)
    requires WellSeeded(h.ty, s) && LookupInv(h, docs0, s, out, done)
    requires d in docs0 && Readable(h, d) && forall x | x in done :: x.id != d.id
    ensures LookupInv(h, docs0, s, LookupStep(h.ty, s.index, out, d), done + [d])
  {
    if d.id in s.index {
      var k := s.index[d.id];
      var e := Base.Fresh(h.ty, d, false);
      var out' := LookupStep(h.ty, s.index, out, d);
      assert out[k] == s.out[k] == Base.Seeded(h.ty, s.out[k].meta.id);
      Base.MergedSeeded(h.ty, s.out[k].meta.id, d, false);
      assert out' == out[k := e];
      LookupMarkFromStore(h, docs0, s, out, d, out');
      MarkUntouched(h, s, out, done, d, e, out');
      LookupMarkDone(h, s, out, done, d, out');
    } else {
      LookupSkip(h, s, out, done, d);
    }
  }

  /** A record whose ObjectId no message asked for changes nothing. */
  lemma LookupSkip(h: Handler, s: Seeding, out: seq<Envelope>, done: seq<Doc>, d: Doc)
    requires |out| == |s.out| && IndexFits(s.index, |s.out|) && d.id !in s.index
    requires Untouched(s, out, done) && LandedAll(h, s, out, done)
    ensures Untouched(s, out, done + [d]) && LandedAll(h, s, out, done + [d])
  {
    assert forall x | x in done + [d] :: x in done || x == d;
    assert forall x | x in done :: x in done + [d];
  }

  /** The rewritten envelope holds a readable stored record with the envelope's ObjectId. */
  lemma LookupMarkFromStore(h: Handler, docs0: seq<Doc>, s: Seeding, out: seq<Envelope>, d: Doc, out': seq<Envelope>)
    requires WellSeeded(h.ty, s) && |out| == |s.out| && d.id in s.index
    requires d in docs0 && Readable(h, d)
    requires out' == out[s.index[d.id] := Base.Fresh(h.ty, d, false)]
    requires FromStore(h, docs0, s, out)
    ensures FromStore(h, docs0, s, out')
  {
    var k := s.index[d.id];
    assert ParseOid(s.out[k].meta.id) == Some(d.id);
    forall i | 0 <= i < |out'|
      ensures (out'[i] == s.out[i] ||
        exists x | x in docs0 && Readable(h, x) && ParseOid(s.out[i].meta.id) == Some(x.id) :: out'[i] == Base.Fresh(h.ty, x, false))
    {
      if i == k {
        assert out'[i] == Base.Fresh(h.ty, d, false);
      }
    }
  }

  /** Each processed record, the new one included, sits in the envelope its ObjectId indexes. */
  lemma LookupMarkDone(h: Handler, s: Seeding, out: seq<Envelope>, done: seq<Doc>, d: Doc, out': seq<Envelope>)
    requires WellSeeded(h.ty, s) && |out| == |s.out| && d.id in s.index
    requires forall x | x in done :: x.id != d.id
    requires out' == out[s.index[d.id] := Base.Fresh(h.ty, d, false)]
    requires LandedAll(h, s, out, done)
    ensures LandedAll(h, s, out', done + [d])
  {
    forall x | x in done + [d] && x.id in s.index
      ensures out'[s.index[x.id]] == Base.Fresh(h.ty, x, false)
    {
      if x != d {
        assert x in done;
        IndexDistinct(h.ty, s, x.id, d.id);
      }
    }
  }

  lemma {:induction false} LookupPassesKeepInv(h: Handler, docs0: seq<Doc>, s: Seeding, found: seq<Doc>)
    requires WellSeeded(h.ty, s) && UniqueIds(found)
    requires forall d | d in found :: d in docs0 && Readable(h, d)
    ensures IndexFits(s.index, |s.out|)
    ensures LookupInv(h, docs0, s, LookupPasses(h.ty, s.index, s.out, found), found)
  {
    if found != [] {
      var n := |found|;
      var pre := found[..n - 1];
      assert found == pre + [found[n - 1]];
      assert UniqueIds(pre);
      LookupPassesKeepInv(h, docs0, s, pre);
      forall x | x in pre ensures x.id != found[n - 1].id {
        var i :| 0 <= i < |pre| && pre[i] == x;
      }
      LookupStepKeepsInv(h, docs0, s, LookupPasses(h.ty, s.index, s.out, pre), pre, found[n - 1]);
    }
  }

  /**
   * `lookup` answers with one envelope per message, in input order: `IdFail`
   * or a stored record with that ObjectId which the actor may read.
   */
  lemma {:induction false} LookupMeaning(h: Handler, docs: seq<Doc>, msgs: seq<Msg>)
    requires UniqueIds(docs) && LookupResult(h, docs, msgs).Ok?
    ensures var out := LookupResult(h, docs, msgs).value;
      && |out| == |msgs| == |Base.ValidIds(h.ty, msgs)|
      && forall i | 0 <= i < |out| ::
           || out[i] == Base.Seeded(h.ty, Base.ValidIds(h.ty, msgs)[i])
           || exists d | d in docs && Readable(h, d) && ParseOid(Base.ValidIds(h.ty, msgs)[i]) == Some(d.id) ::
                out[i] == Base.Fresh(h.ty, d, false)
  {
    var s := Seed(h, msgs, ForLookup).value;
    var ids := Base.ValidIds(h.ty, msgs);
    SeedShape(h, msgs, ForLookup);
    SeedFails(h, msgs, ForLookup);
    AllValid(h.ty, msgs);
    var found := FoundFor(h, docs, s.index.Keys).value;
    FoundForSound(h, docs, s.index.Keys);
    LookupPassesKeepInv(h, docs, s, found);
    var out := LookupPasses(h.ty, s.index, s.out, found);
    assert LookupResult(h, docs, msgs).value == out;
    forall i | 0 <= i < |out|
      ensures || out[i] == Base.Seeded(h.ty, ids[i])
              || exists d | d in docs && Readable(h, d) && ParseOid(ids[i]) == Some(d.id) :: out[i] == Base.Fresh(h.ty, d, false)
    {
      assert s.out[i] == Base.Seeded(h.ty, ids[i]);
    }
  }

  /** Every record `findByOid` returns lands in the envelope last seeded for its id. */
  lemma {:induction false} LookupComplete(h: Handler, docs: seq<Doc>, msgs: seq<Msg>, s: Seeding, found: seq<Doc>)
    requires UniqueIds(docs) && Seed(h, msgs, ForLookup) == Ok(s) && FoundFor(h, docs, s.index.Keys) == Ok(found)
    ensures LastSeeded(s) && IndexFits(s.index, |s.out|)
    ensures LookupResult(h, docs, msgs) == Ok(LookupPasses(h.ty, s.index, s.out, found))
    ensures forall d | d in found :: d.id in s.index && LookupPasses(h.ty, s.index, s.out, found)[s.index[d.id]] == Base.Fresh(h.ty, d, false)
    ensures forall i | 0 <= i < |s.out| && (forall d | d in found && d.id in s.index :: s.index[d.id] != i) ::
      LookupPasses(h.ty, s.index, s.out, found)[i] == s.out[i]
  {
    SeedShape(h, msgs, ForLookup);
    FoundForSound(h, docs, s.index.Keys);
    LookupPassesKeepInv(h, docs, s, found);
    forall i | 0 <= i < |s.out| && (forall d | d in found && d.id in s.index :: s.index[d.id] != i)
      ensures LookupPasses(h.ty, s.index, s.out, found)[i] == s.out[i]
    {
      LookupPassesOnlyFound(h.ty, s.index, s.out, found, i);
    }
  }

  /** `lookup`'s loop writes only the envelopes that a found record's ObjectId is indexed to. */
  lemma {:induction false} LookupPassesOnlyFound(ty: string, index: map<Oid, nat>, out: seq<Envelope>, found: seq<Doc>, i: nat)
    requires IndexFits(index, |out|) && i < |out|
    requires forall d | d in found && d.id in index :: index[d.id] != i
    ensures LookupPasses(ty, index, out, found)[i] == out[i]
  {
    if found != [] {
      var n := |found|;
      assert forall d | d in found[..n - 1] :: d in found;
      LookupPassesOnlyFound(ty, index, out, found[..n - 1], i);
      assert found[n - 1] in found;
    }
  }

  /** When every message is valid, each has its id in the valid-id list. */
  lemma {:induction false} AllValid(ty: string, msgs: seq<Msg>)
    requires forall i | 0 <= i < |msgs| :: Base.IsValid(ty, msgs[i])
    ensures |Base.ValidIds(ty, msgs)| == |msgs|
  {
    if msgs != [] {
      AllValid(ty, msgs[..|msgs| - 1]);
    }
  }

  // find

  /** The projection `select({_id: 1, __v: 1, owner: 1})`. */
  function Project(d: Doc): (r: Doc)
    ensures r.id == d.id && r.version == d.version
    ensures r.body.Keys <= {"owner"} && ("owner" in d.body <==> "owner" in r.body)
    ensures "owner" in d.body ==> r.body["owner"] == d.body["owner"]
  {
    Doc(d.id, d.version, if "owner" in d.body then map["owner" := d.body["owner"]] else map[])
  }

  function Projected(ds: seq<Doc>): (r: seq<Doc>)
    ensures |r| == |ds| && forall i | 0 <= i < |ds| :: r[i] == Project(ds[i])
  {
    seq(|ds|, i requires 0 <= i < |ds| => Project(ds[i]))
  }

  /** The metadata-only envelope `find` emits for a record. */
  function MetaOnly(ty: string, d: Doc): (e: Envelope)
    ensures e.meta == Base.GenMeta(ty, d, false) && e.body == map[]
  {
    Envelope(Base.GenMeta(ty, d, false), map[])
  }

  /** `find(spec)` on a store holding `docs`: every failure becomes `QueryFail`. */
  function FindResult(h: Handler, docs: seq<Doc>, spec: QuerySpec): Result<seq<Envelope>, Error>
  {
    match ReadFilter(h, Projected(Select(docs, FilteredSpec(h, spec))))
    case Err(_) => Err(QueryFail)
    case Ok(ds) => Ok(seq(|ds|, i requires 0 <= i < |ds| => MetaOnly(h.ty, ds[i])))
  }

  /** An envelope `find` may report: bare metadata of a stored record that satisfies the caller's query and whose projection the actor may read. */
  ghost predicate Reportable(h: Handler, docs: seq<Doc>, spec: QuerySpec, e: Envelope)
  {
    && e.body == map[]
    && exists d | d in docs && MatchesIgnoringOwner(spec, d) && Readable(h, Project(d)) :: e.meta == Base.GenMeta(h.ty, d, false)
  }

  /** `find` reports only reportable envelopes, and fails only with `QueryFail`. */
  lemma FindSound(h: Handler, docs: seq<Doc>, spec: QuerySpec)
    ensures FindResult(h, docs, spec).Err? ==> FindResult(h, docs, spec).error == QueryFail
    ensures FindResult(h, docs, spec).Ok? ==>
      forall i | 0 <= i < |FindResult(h, docs, spec).value| :: Reportable(h, docs, spec, FindResult(h, docs, spec).value[i])
  {
    var selected := Select(docs, FilteredSpec(h, spec));
    var proj := Projected(selected);
    ReadFilterMeaning(h, proj);
    if ReadFilter(h, proj).Ok? {
      var ds := ReadFilter(h, proj).value;
      var r := FindResult(h, docs, spec).value;
      forall i | 0 <= i < |r|
        ensures Reportable(h, docs, spec, r[i])
      {
        assert ds[i] in ds;
        var j :| 0 <= j < |proj| && proj[j] == ds[i];
        var d := selected[j];
        assert d in selected;
        FilteredSpecNarrows(h, spec, d);
        assert r[i].meta == Base.GenMeta(h.ty, d, false);
      }
    }
  }

  /**
   * `find` reports every record the store's query returns for the rewritten
   * specification whose projection the actor may read: without a limit every
   * stored record the rewritten query admits, with a limit the first ones in
   * store order (see `Select`).
   */
  lemma FindComplete(h: Handler, docs: seq<Doc>, spec: QuerySpec, d: Doc)
    requires d in Select(docs, FilteredSpec(h, spec)) && Readable(h, Project(d))
    ensures FindResult(h, docs, spec).Ok? ==> MetaOnly(h.ty, d) in FindResult(h, docs, spec).value
  {
    var selected := Select(docs, FilteredSpec(h, spec));
    var proj := Projected(selected);
    ReadFilterMeaning(h, proj);
    if ReadFilter(h, proj).Ok? {
      var ds := ReadFilter(h, proj).value;
      var r := FindResult(h, docs, spec).value;
      assert d in selected;
      var j :| 0 <= j < |selected| && selected[j] == d;
      assert proj[j] == Project(d);
      assert Project(d) in ds;
      var i :| 0 <= i < |ds| && ds[i] == Project(d);
      assert r[i] == MetaOnly(h.ty, d);
    }
  }

  // Early exits: once a loop has failed, the rest of the batch does not change the answer

  lemma {:induction false} SeedErrSticks(h: Handler, msgs: seq<Msg>, mode: SeedMode, i: nat)
    requires i <= |msgs| && Seed(h, msgs[..i], mode).Err?
    ensures Seed(h, msgs, mode) == Seed(h, msgs[..i], mode)
  {
    if i < |msgs| {
      var n := |msgs|;
      assert msgs[..n - 1][..i] == msgs[..i];
      SeedErrSticks(h, msgs[..n - 1], mode, i);
    } else {
      assert msgs[..i] == msgs;
    }
  }

  lemma {:induction false} RemovePassesErrSticks(h: Handler, fails: Oid -> bool, index: map<Oid, nat>, p: Pass, found: seq<Doc>, j: nat)
    requires IndexFits(index, |p.out|) && j <= |found|
    requires RemovePasses(h, fails, index, p, found[..j]).error.Some?
    ensures RemovePasses(h, fails, index, p, found) == RemovePasses(h, fails, index, p, found[..j])
  {
    if j < |found| {
      var n := |found|;
      assert found[..n - 1][..j] == found[..j];
      RemovePassesErrSticks(h, fails, index, p, found[..n - 1], j);
    } else {
      assert found[..j] == found;
    }
  }

  lemma {:induction false} UpdatePassesErrSticks(h: Handler, fails: Oid -> bool, s: Seeding, p: Pass, found: seq<Doc>, j: nat)
    requires IndexFits(s.index, |p.out|) && j <= |found|
    requires UpdatePasses(h, fails, s, p, found[..j]).error.Some?
    ensures UpdatePasses(h, fails, s, p, found) == UpdatePasses(h, fails, s, p, found[..j])
  {
    if j < |found| {
      var n := |found|;
      assert found[..n - 1][..j] == found[..j];
      UpdatePassesErrSticks(h, fails, s, p, found[..n - 1], j);
    } else {
      assert found[..j] == found;
    }
  }

  // create

  /** The records `insertMany` stores for the prepared payloads, under the ids it assigns. */
  function Inserted(ids: seq<Oid>, bodies: seq<map<string, Value>>): (r: seq<Doc>)
    requires |ids| == |bodies|
    ensures |r| == |bodies| && forall k | 0 <= k < |r| :: r[k] == Doc(ids[k], 0, bodies[k])
  {
    seq(|bodies|, k requires 0 <= k < |bodies| => Doc(ids[k], 0, bodies[k]))
  }

  /**
   * `create(msgs)` on a store holding `docs`, whose next ObjectIds are `ids`
   * and whose schema accepts the payloads `accepts` holds for.
   */
  function CreateResult(h: Handler, docs: seq<Doc>, ids: seq<Oid>, accepts: map<string, Value> -> bool, msgs: seq<Msg>): Outcome
    requires |ids| == |msgs|
  {
    match CanNewAll(h, msgs)
    case Err(e) => Outcome(Err(e), docs)
    case Ok(permitted) =>
      if !permitted then Outcome(Err(PermissionFail), docs)
      else
        match RedactWriteAll(h, msgs)
        case Err(_) => Outcome(Err(SchemaFail), docs)
        case Ok(bodies) =>
          if (forall k | 0 <= k < |bodies| :: accepts(bodies[k])) && Store.FreshIds(docs, ids) then
            var added := Inserted(ids, bodies);
            Outcome(Ok(seq(|added|, k requires 0 <= k < |added| => Base.Fresh(h.ty, added[k], false))), docs + added)
          else Outcome(Err(SchemaFail), docs)
  }

  /**
   * `create` is all-or-nothing: it succeeds only when every message may be
   * created, and then stores one record per message, at revision 0 with the
   * message's fields less `_id` and `__v`, and answers with those records in
   * order; otherwise the store is unchanged, a message the actor may not
   * create (with no hook throwing) gives `PermissionFail`, and once every
   * message is permitted the only failure left is `SchemaFail`.
   */
  lemma {:induction false} CreateMeaning(h: Handler, docs: seq<Doc>, ids: seq<Oid>, accepts: map<string, Value> -> bool, msgs: seq<Msg>)
    requires |ids| == |msgs|
    ensures var res := CreateResult(h, docs, ids, accepts, msgs);
      && (!res.r.Ok? ==> res.docs == docs)
      && (((forall i | 0 <= i < |msgs| :: CanNew(h, msgs[i]).Ok?) && (exists i | 0 <= i < |msgs| :: CanNew(h, msgs[i]) == Ok(false)))
          ==> res.r == Err(PermissionFail))
      && ((forall i | 0 <= i < |msgs| :: CanNew(h, msgs[i]) == Ok(true)) ==> res.r.Ok? || res.r == Err(SchemaFail))
      && (res.r.Ok? ==>
            && (forall i | 0 <= i < |msgs| :: CanNew(h, msgs[i]) == Ok(true))
            && |res.r.value| == |msgs| && |res.docs| == |docs| + |msgs| && res.docs[..|docs|] == docs
            && forall k | 0 <= k < |msgs| ::
                 && res.docs[|docs| + k] == Doc(ids[k], 0, Base.StripStorageFields(msgs[k]))
                 && res.r.value[k] == Base.Fresh(h.ty, res.docs[|docs| + k], false))
  {
    var res := CreateResult(h, docs, ids, accepts, msgs);
    if res.r.Ok? {
      var bodies := RedactWriteAll(h, msgs).value;
      var added := Inserted(ids, bodies);
      assert res.docs == docs + added;
      assert (docs + added)[..|docs|] == docs;
      forall k | 0 <= k < |msgs| ensures res.docs[|docs| + k] == Doc(ids[k], 0, Base.StripStorageFields(msgs[k])) {
        assert RedactWrite(h, msgs[k]) == Ok(bodies[k]);
      }
    }
  }
}

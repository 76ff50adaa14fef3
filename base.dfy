/**
 * The expression-level part of the base handler (crufler.js): message
 * validation, result metadata, read redaction, the storage-field strip every
 * concrete policy uses for writes, and ownership stamping.
 */
module Base {
  import opened Values

  /** `isValid(msg)`: an object whose `$meta` object names this type and carries a string id. */
  predicate IsValid(ty: string, m: Msg)
  {
    m.Obj? && m.meta.Some? && m.meta.value.ty == Some(ty) && m.meta.value.id.Some?
  }

  /** The id of a message when it is valid for the handler's type. */
  function ValidId(ty: string, m: Msg): (r: Option<string>)
    ensures r.Some? <==> m.Obj? && m.meta.Some? && m.meta.value.ty == Some(ty) && m.meta.value.id.Some?
    ensures r.Some? ==> Some(r.value) == m.meta.value.id
  {
    if IsValid(ty, m) then m.meta.value.id else None
  }

  /** The ids of the valid messages of a batch, in input order. */
  function ValidIds(ty: string, msgs: seq<Msg>): (ids: seq<string>)
    ensures |ids| <= |msgs|
    ensures |ids| == |msgs| <==> forall i | 0 <= i < |msgs| :: IsValid(ty, msgs[i])
    ensures forall k | 0 <= k < |ids| :: exists i | 0 <= i < |msgs| :: IsValid(ty, msgs[i]) && ids[k] == msgs[i].meta.value.id.value
  {
    if msgs == [] then []
    else
      var n := |msgs|;
      ValidIds(ty, msgs[..n - 1]) + (if IsValid(ty, msgs[n - 1]) then [msgs[n - 1].meta.value.id.value] else [])
  }

  /** `genMeta(msg, removed)`: the metadata of a stored record. */
  function GenMeta(ty: string, d: Doc, removed: bool): (m: OutMeta)
    ensures m.ty == ty && m.id == d.id && m.version == Some(d.version)
    ensures m.error.None? && m.removed == removed
  {
    OutMeta(ty, d.id, Some(d.version), None, removed)
  }

  /** `redactRead(doc)`: the record as a plain object, `_id` and `__v` included. */
  function RedactRead(d: Doc): (r: map<string, Value>)
    ensures r.Keys == d.body.Keys + {"_id", "__v"}
    ensures r["_id"] == Str(d.id) && r["__v"] == Num(d.version)
    ensures forall k | k in d.body && k != "_id" && k != "__v" :: r[k] == d.body[k]
  {
    d.body["_id" := Str(d.id)]["__v" := Num(d.version)]
  }

  /** The envelope a verb seeds for each valid message before looking it up. */
  function Seeded(ty: string, id: string): Envelope
  {
    Envelope(OutMeta(ty, id, None, Some(IdFail), false), map[])
  }

  /** `outMsg.$meta.error = err`. */
  function WithError(e: Envelope, err: Error): Envelope
  {
    e.(meta := e.meta.(error := Some(err)))
  }

  /** `Object.assign(outMsg, redactRead(doc), {$meta: genMeta(doc, removed)})`. */
  function Merged(e: Envelope, ty: string, d: Doc, removed: bool): Envelope
  {
    Envelope(GenMeta(ty, d, removed), e.body + RedactRead(d))
  }

  /** The envelope of a record: its redacted fields under fresh metadata. */
  function Fresh(ty: string, d: Doc, removed: bool): Envelope
  {
    Envelope(GenMeta(ty, d, removed), RedactRead(d))
  }

  /** Merging a record into a seeded envelope gives exactly the record's envelope. */
  lemma MergedSeeded(ty: string, id: string, d: Doc, removed: bool)
    ensures Merged(Seeded(ty, id), ty, d, removed) == Fresh(ty, d, removed)
  {
    assert map[] + RedactRead(d) == RedactRead(d);
  }

  /**
   * `redactWrite` of the admin and ownership handlers: drop `_id`, `__v` and
   * `$meta` (kept apart in `Msg`) and keep every other field; a non-object
   * gives an empty object.
   */
  function StripStorageFields(m: Msg): (r: map<string, Value>)
    ensures forall k :: k in r <==> m.Obj? && k in m.fields && k != "_id" && k != "__v"
    ensures forall k | k in r :: r[k] == m.fields[k]
  {
    FieldsOf(m) - {"_id", "__v"}
  }

  /** Writing a stripped payload back and stripping again changes nothing. */
  lemma StripStorageFieldsIdempotent(m: Msg)
    requires m.Obj?
    ensures StripStorageFields(Obj(m.meta, StripStorageFields(m))) == StripStorageFields(m)
  {
  }

  function ActorRef(actor: Actor): Ref
  {
    Ref(actor.ty, actor.id)
  }

  /** `own(msg)`: stamp the actor as owner, on the message or on a new object. */
  function Own(actor: Actor, m: Msg): (r: Msg)
    ensures r.Obj? && "owner" in r.fields && r.fields["owner"] == RefVal(ActorRef(actor))
    ensures m.Obj? ==> r.meta == m.meta && forall k | k in m.fields && k != "owner" :: k in r.fields && r.fields[k] == m.fields[k]
    ensures r.fields.Keys == FieldsOf(m).Keys + {"owner"}
  {
    if m.Obj? then Obj(m.meta, m.fields["owner" := RefVal(ActorRef(actor))])
    else Obj(None, map["owner" := RefVal(ActorRef(actor))])
  }

  /**
   * `owns(msg)`: the record's owner has the actor's (non-empty) type and id.
   * Reading `owner.type` of a null owner throws.
   */
  function Owns(actor: Actor, m: Msg): (r: Result<bool, Error>)
    ensures r == Ok(true) <==> m.Obj? && "owner" in m.fields && m.fields["owner"] == RefVal(ActorRef(actor)) && actor.ty != "" && actor.id != ""
    ensures r.Err? <==> m.Obj? && "owner" in m.fields && m.fields["owner"] == Null
  {
    if !m.Obj? || "owner" !in m.fields then Ok(false)
    else
      match m.fields["owner"]
      case Null => Err(TypeError)
      case RefVal(o) => Ok(o.ty != "" && actor.ty != "" && o.ty == actor.ty && o.id != "" && actor.id != "" && o.id == actor.id)
      case _ => Ok(false)
  }

  /** An actor with a non-empty type and id owns whatever it has stamped. */
  lemma OwnThenOwns(actor: Actor, m: Msg)
    requires actor.ty != "" && actor.id != ""
    ensures Owns(actor, Own(actor, m)) == Ok(true)
  {
  }
}

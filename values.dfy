/**
 * Values exchanged between clients, the policy handlers and the document
 * store: field values, client messages, stored documents, result envelopes,
 * actors, raw permission objects and the error taxonomy, plus the parse of a
 * client id into a store ObjectId.
 */
module Values {

  datatype Option<+T> = None | Some(value: T)

  datatype Result<+T, +E> = Ok(value: T) | Err(error: E)

  /** A `{type, id}` reference to an actor or a resource (`ty` is `type`). */
  datatype Ref = Ref(ty: string, id: string)

  /** A field value, as far as the policy logic looks into it. */
  datatype Value =
    | Null                     // null or undefined
    | Bool(b: bool)
    | Num(n: int)
    | Str(s: string)
    | RefVal(ref: Ref)         // an embedded `{type, id}` object
    | RefList(refs: seq<Ref>)  // an array of `{type, id}` objects
    | OtherObject              // any other object or array

  /** JavaScript truthiness (`Boolean(v)`). */
  predicate Truthy(v: Value)
  {
    match v
    case Null => false
    case Bool(b) => b
    case Num(n) => n != 0
    case Str(s) => s != ""
    case _ => true
  }

  /** Truthiness of an optional property: an absent property is `undefined`. */
  predicate TruthyField(v: Option<Value>)
  {
    v.Some? && Truthy(v.value)
  }

  /**
   * The `$meta` block of a client message. `type` and `id` are `None` when
   * the property is absent or is not a string.
   */
  datatype Meta = Meta(ty: Option<string>, id: Option<string>)

  /**
   * A client message: a falsy value (null, undefined, 0, ""), another
   * non-object value, or an object whose `$meta` is `None` when absent or not
   * an object, and whose other properties are `fields`.
   */
  datatype Msg =
    | Falsy
    | Primitive
    | Obj(meta: Option<Meta>, fields: map<string, Value>)

  /** The own properties of a message, seen as a plain object. */
  function FieldsOf(m: Msg): map<string, Value>
  {
    if m.Obj? then m.fields else map[]
  }

  /** The canonical (lower-case hexadecimal) form of a store ObjectId. */
  type Oid = string

  /** A stored record: its ObjectId `_id`, revision counter `__v` and payload. */
  datatype Doc = Doc(id: Oid, version: nat, body: map<string, Value>)

  /** An actor the request is made on behalf of, with its role markers. */
  datatype SubActor = SubActor(ty: string, id: string, owner: bool, admins: bool, members: bool, devices: bool)

  /** The requesting actor; `actors` is `None` when `actor.actors` is falsy. */
  datatype Actor = Actor(ty: string, id: string, actors: Option<seq<SubActor>>)

  /**
   * The raw value a collection's `permissions()` resolver yields: null or
   * undefined, another non-object, or an object with optional flags.
   */
  datatype RawPermissions =
    | NullPermissions
    | ScalarPermissions
    | PermissionFields(read: Option<Value>, create: Option<Value>, change: Option<Value>)

  /** The normalised permission set of the ownership handler (`create` is the `new` flag). */
  datatype Permissions = Permissions(read: bool, create: bool, change: bool)

  datatype Error =
    | CheckFailNoMessages
    | CheckFail
    | PermissionFail
    | SchemaFail
    | BouncerFail
    | QueryFail
    | MalformedId
    | MalformedMessage
    | IdFail
    | NotImplemented   // the base handler's redactWrite
    | TypeError        // a property read on null or undefined, or a call of a missing resolver

  /** The `message` of the Error object each failure is raised with. */
  function Message(e: Error): (s: string)
    ensures s != ""
  {
    match e
    case CheckFailNoMessages => "CheckFail: no messages"
    case CheckFail => "CheckFail"
    case PermissionFail => "PermissionFail"
    case SchemaFail => "SchemaFail"
    case BouncerFail => "BouncerFail"
    case QueryFail => "QueryFail"
    case MalformedId => "MessageFail: malformed id"
    case MalformedMessage => "MessageFail: malformed message"
    case IdFail => "IdFail"
    case NotImplemented => "crufler subclass must implement redactWrite(msg)"
    case TypeError => "TypeError"
  }

  /** The `$meta` block of a result envelope. */
  datatype OutMeta = OutMeta(ty: string, id: string, version: Option<nat>, error: Option<Error>, removed: bool)

  /** A result envelope: metadata plus the redacted record fields. */
  datatype Envelope = Envelope(meta: OutMeta, body: map<string, Value>)

  // ObjectId parsing

  predicate IsHexDigit(c: char)
  {
    '0' <= c <= '9' || 'a' <= c <= 'f' || 'A' <= c <= 'F'
  }

  predicate IsLowerHexDigit(c: char)
  {
    '0' <= c <= '9' || 'a' <= c <= 'f'
  }

  function LowerHex(c: char): (d: char)
    requires IsHexDigit(c)
    ensures IsLowerHexDigit(d)
    ensures IsLowerHexDigit(c) ==> d == c
  {
    if 'A' <= c <= 'F' then c - 'A' + 'a' else c
  }

  /** A canonical ObjectId string: 24 lower-case hexadecimal digits. */
  predicate IsOid(s: string)
  {
    |s| == 24 && forall i | 0 <= i < |s| :: IsLowerHexDigit(s[i])
  }

  /**
   * `new ObjectId(id)` for a string id: a 24-digit hexadecimal string parses,
   * to its lower-case form; anything else is rejected.
   */
  function ParseOid(s: string): (r: Option<Oid>)
    ensures r.Some? <==> |s| == 24 && forall i | 0 <= i < |s| :: IsHexDigit(s[i])
    ensures r.Some? ==> IsOid(r.value) && forall i | 0 <= i < |s| :: r.value[i] == LowerHex(s[i])
  {
    if |s| == 24 && forall i | 0 <= i < |s| :: IsHexDigit(s[i]) then
      Some(seq(|s|, i requires 0 <= i < |s| => LowerHex(s[i])))
    else
      None
  }

  /** A canonical id parses to itself: ids the store hands out can be sent back. */
  lemma CanonicalOidParses(s: string)
    requires IsOid(s)
    ensures ParseOid(s) == Some(s)
  {
    var r := ParseOid(s);
    assert r.Some?;
    assert r.value == s;
  }

  /** Parsing is idempotent: the parsed form of an id is already canonical. */
  lemma ParseOidIdempotent(s: string)
    requires ParseOid(s).Some?
    ensures ParseOid(ParseOid(s).value) == ParseOid(s)
  {
    CanonicalOidParses(ParseOid(s).value);
  }
}

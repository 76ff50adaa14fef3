/**
 * The three handler variants behind one interface. The base handler
 * (crufler.js) denies every capability and cannot redact writes, the
 * administrative handler allows everything, and the ownership handler
 * decides with its configuration. The verbs call the hooks through these
 * dispatchers, as the JavaScript verbs call the overridden methods.
 */
module Handlers {
  import opened Values
  import opened Query
  import Base
  import AdminCrufler
  import OwnerCrufler

  datatype Policy =
    | DenyAll                             // Crufler itself
    | Admin                               // AdminCrufler
    | Owner(config: OwnerCrufler.Config)  // OwnerCrufler

  /** A handler: the collection type it serves and the policy it applies. */
  datatype Handler = Handler(ty: string, policy: Policy)

  /** `canRead(msg)`. */
  function CanRead(h: Handler, d: Doc): Result<bool, Error>
  {
    match h.policy
    case DenyAll => Ok(false)
    case Admin => Ok(AdminCrufler.CanRead(d))
    case Owner(c) => OwnerCrufler.CanRead(h.ty, c, d)
  }

  /** `canNew(msg)`. */
  function CanNew(h: Handler, m: Msg): Result<bool, Error>
  {
    match h.policy
    case DenyAll => Ok(false)
    case Admin => Ok(AdminCrufler.CanNew(m))
    case Owner(c) => OwnerCrufler.CanNew(h.ty, c, m)
  }

  /** `canChange(msg, newMsg)`. */
  function CanChange(h: Handler, prev: Doc, next: Doc): Result<bool, Error>
  {
    match h.policy
    case DenyAll => Ok(false)
    case Admin => Ok(AdminCrufler.CanChange(prev, next))
    case Owner(c) => OwnerCrufler.CanChange(h.ty, c, prev, next)
  }

  /** `redactWrite(msg)`: the base handler throws; the others drop the storage fields. */
  function RedactWrite(h: Handler, m: Msg): (r: Result<map<string, Value>, Error>)
    ensures r.Err? <==> h.policy.DenyAll?
    ensures r.Err? ==> r.error == NotImplemented
    ensures r.Ok? ==> forall k :: k in r.value <==> m.Obj? && k in m.fields && k != "_id" && k != "__v"
  {
    match h.policy
    case DenyAll => Err(NotImplemented)
    case Admin => Ok(AdminCrufler.RedactWrite(m))
    case Owner(_) => Ok(Base.StripStorageFields(m))
  }

  /** `filterQuerySpec(spec)` as a function of its inputs. */
  function FilteredSpec(h: Handler, spec: QuerySpec): (r: QuerySpec)
    ensures r.ids == spec.ids && r.limit == spec.limit
  {
    match h.policy
    case DenyAll => spec
    case Admin => AdminCrufler.FilteredSpec(spec)
    case Owner(c) => OwnerCrufler.FilteredSpec(h.ty, c, spec)
  }

  /** `filterQuerySpec(spec)`. */
  method FilterQuerySpec(h: Handler, spec: QuerySpec) returns (r: QuerySpec)
    ensures r == FilteredSpec(h, spec)
  {
    match h.policy
    case DenyAll =>
      r := spec;
    case Admin =>
      r := AdminCrufler.FilteredSpec(spec);
    case Owner(c) =>
      r := OwnerCrufler.FilterQuerySpec(h.ty, c, spec);
  }

  /** Under every policy the rewritten query never admits more than the caller asked for (a given `owner` aside). */
  lemma FilteredSpecNarrows(h: Handler, spec: QuerySpec, d: Doc)
    ensures Matches(FilteredSpec(h, spec), d) ==> MatchesIgnoringOwner(spec, d)
  {
    if h.policy.Owner? {
      OwnerCrufler.FilteredSpecNarrows(h.ty, h.policy.config, spec, d);
    }
  }

  /** The base handler refuses every capability and cannot prepare writes. */
  lemma DenyAllDenies(h: Handler, d: Doc, m: Msg, next: Doc, spec: QuerySpec)
    requires h.policy.DenyAll?
    ensures CanRead(h, d) == Ok(false) && CanNew(h, m) == Ok(false) && CanChange(h, d, next) == Ok(false)
    ensures RedactWrite(h, m) == Err(NotImplemented) && FilteredSpec(h, spec) == spec
  {
  }

  /** The administrative handler grants every capability, whoever asks, and passes queries through. */
  lemma AdminAllows(h: Handler, d: Doc, m: Msg, next: Doc, spec: QuerySpec)
    requires h.policy.Admin?
    ensures CanRead(h, d) == Ok(true) && CanNew(h, m) == Ok(true) && CanChange(h, d, next) == Ok(true)
    ensures FilteredSpec(h, spec) == spec && RedactWrite(h, m) == Ok(Base.StripStorageFields(m))
  {
  }

  predicate Readable(h: Handler, d: Doc)
  {
    CanRead(h, d) == Ok(true)
  }

  function ReadableBy(h: Handler): Doc -> bool
  {
    (d: Doc) => Readable(h, d)
  }

  /**
   * `canRead` applied to every fetched record and the records filtered by the
   * answers (the read filter of `findByOid`). A hook that throws rejects the
   * whole batch; the first one in input order is reported.
   */
  function ReadFilter(h: Handler, ds: seq<Doc>): Result<seq<Doc>, Error>
  {
    if ds == [] then Ok([])
    else
      var n := |ds|;
      match ReadFilter(h, ds[..n - 1])
      case Err(e) => Err(e)
      case Ok(kept) =>
        match CanRead(h, ds[n - 1])
        case Err(e) => Err(e)
        case Ok(b) => Ok(if b then kept + [ds[n - 1]] else kept)
  }

  /**
   * The read filter keeps exactly the readable records, in order, and
   * rejects exactly when some record's `canRead` throws.
   */
  lemma {:induction false} ReadFilterMeaning(h: Handler, ds: seq<Doc>)
    ensures ReadFilter(h, ds).Ok? ==> ReadFilter(h, ds).value == Filter(ds, ReadableBy(h))
    ensures ReadFilter(h, ds).Err? <==> exists i | 0 <= i < |ds| :: CanRead(h, ds[i]).Err?
  {
    if ds != [] {
      var n := |ds|;
      ReadFilterMeaning(h, ds[..n - 1]);
      assert ds == ds[..n - 1] + [ds[n - 1]];
      assert forall i | 0 <= i < n - 1 :: ds[..n - 1][i] == ds[i];
    }
  }

  /**
   * `canNew` of every message (`Promise.all` of the answers, then `every`):
   * the first hook that throws, otherwise whether all of them allow.
   */
  function CanNewAll(h: Handler, msgs: seq<Msg>): (r: Result<bool, Error>)
    ensures r == Ok(true) <==> forall i | 0 <= i < |msgs| :: CanNew(h, msgs[i]) == Ok(true)
    ensures r.Err? <==> exists i | 0 <= i < |msgs| :: CanNew(h, msgs[i]).Err?
  {
    if msgs == [] then Ok(true)
    else
      var n := |msgs|;
      assert msgs == msgs[..n - 1] + [msgs[n - 1]];
      match CanNewAll(h, msgs[..n - 1])
      case Err(e) => Err(e)
      case Ok(all) =>
        match CanNew(h, msgs[n - 1])
        case Err(e) => Err(e)
        case Ok(b) => Ok(all && b)
  }

  /** The read filter of one more record: the earlier error, this record's error, or the record kept when readable. */
  lemma ReadFilterSnoc(h: Handler, ds: seq<Doc>, i: nat)
    requires i < |ds|
    ensures ReadFilter(h, ds[..i + 1]) ==
      match ReadFilter(h, ds[..i])
      case Err(e) => Err(e)
      case Ok(kept) =>
        match CanRead(h, ds[i])
        case Err(e) => Err(e)
        case Ok(b) => Ok(if b then kept + [ds[i]] else kept)
  {
    assert ds[..i + 1][..i] == ds[..i];
  }

  /** Once a prefix of the batch has a throwing hook, the whole read filter rejects with that hook's error. */
  lemma {:induction false} ReadFilterErrSticks(h: Handler, ds: seq<Doc>, i: nat)
    requires i <= |ds| && ReadFilter(h, ds[..i]).Err?
    ensures ReadFilter(h, ds) == ReadFilter(h, ds[..i])
  {
    if i < |ds| {
      var n := |ds|;
      assert ds[..n - 1][..i] == ds[..i];
      ReadFilterErrSticks(h, ds[..n - 1], i);
    } else {
      assert ds[..i] == ds;
    }
  }

  /** `msgs.map(msg => this.redactWrite(msg))`: the first message the handler refuses, or every payload. */
  function RedactWriteAll(h: Handler, msgs: seq<Msg>): (r: Result<seq<map<string, Value>>, Error>)
    ensures r.Err? <==> h.policy.DenyAll? && |msgs| > 0
    ensures r.Ok? ==> |r.value| == |msgs| && forall k | 0 <= k < |msgs| :: RedactWrite(h, msgs[k]) == Ok(r.value[k])
  {
    if msgs == [] then Ok([])
    else
      var n := |msgs|;
      match RedactWriteAll(h, msgs[..n - 1])
      case Err(e) => Err(e)
      case Ok(ps) =>
        match RedactWrite(h, msgs[n - 1])
        case Err(e) => Err(e)
        case Ok(p) =>
          assert forall k | 0 <= k < n - 1 :: msgs[..n - 1][k] == msgs[k];
          Ok(ps + [p])
  }
}

/**
 * The query specification handed to the store: an optional id list, a list of
 * `equals`/`and`/`or` match trees, an optional `owner` equality and an
 * optional limit, with the meaning a store gives it over stored documents.
 */
module Query {
  import opened Values

  /** A match tree: `{op: 'equals', param, value}`, `{op: 'and', match}`, `{op: 'or', match}`. */
  datatype Expr =
    | Equals(path: seq<string>, value: Value)
    | And(es: seq<Expr>)
    | Or(es: seq<Expr>)

  /**
   * A query specification. `ids` is `None` when no id list is given; an empty
   * `matches` (the `match` property) stands for an absent one; `owner` is the `owner` shorthand.
   */
  datatype QuerySpec = QuerySpec(ids: Option<set<Oid>>, matches: seq<Expr>, owner: Option<Ref>, limit: Option<nat>)

  /** The specification `findByOid` starts from: just an id list. */
  function IdsSpec(ids: set<Oid>): QuerySpec
  {
    QuerySpec(Some(ids), [], None, None)
  }

  predicate RefHas(r: Ref, field: string, v: Value)
  {
    (field == "id" && v == Str(r.id)) || (field == "type" && v == Str(r.ty))
  }

  /**
   * Whether the value at `path` in `d` equals `v`. A path into an array of
   * references matches when any element matches, as a document store does.
   */
  predicate PathHas(d: Doc, path: seq<string>, v: Value)
  {
    if path == ["_id"] then v == Str(d.id)
    else if path == ["__v"] then v == Num(d.version)
    else if |path| == 1 then path[0] in d.body && d.body[path[0]] == v
    else if |path| == 2 && path[0] in d.body then
      match d.body[path[0]]
      case RefVal(r) => RefHas(r, path[1], v)
      case RefList(rs) => exists i | 0 <= i < |rs| :: RefHas(rs[i], path[1], v)
      case _ => false
    else false
  }

  /** The meaning of a match tree on one document. */
  predicate Holds(e: Expr, d: Doc)
    decreases e
  {
    match e
    case Equals(path, v) => PathHas(d, path, v)
    case And(es) => forall i | 0 <= i < |es| :: Holds(es[i], d)
    case Or(es) => exists i | 0 <= i < |es| :: Holds(es[i], d)
  }

  /** All trees of a `match` list hold (the list is a conjunction). */
  predicate AllHold(es: seq<Expr>, d: Doc)
  {
    forall i | 0 <= i < |es| :: Holds(es[i], d)
  }

  /** Some tree of a filter list holds (the list is a disjunction). */
  predicate AnyHolds(es: seq<Expr>, d: Doc)
  {
    exists i | 0 <= i < |es| :: Holds(es[i], d)
  }

  /** A conjunction list of two parts holds when both parts hold. */
  lemma AllHoldConcat(a: seq<Expr>, b: seq<Expr>, d: Doc)
    ensures AllHold(a + b, d) <==> AllHold(a, d) && AllHold(b, d)
  {
    var ab := a + b;
    if AllHold(a, d) && AllHold(b, d) {
      forall i | 0 <= i < |ab| ensures Holds(ab[i], d) {
        if i < |a| {
          assert ab[i] == a[i];
        } else {
          assert ab[i] == b[i - |a|];
        }
      }
    }
    if AllHold(ab, d) {
      forall i | 0 <= i < |a| ensures Holds(a[i], d) {
        assert ab[i] == a[i];
      }
      forall i | 0 <= i < |b| ensures Holds(b[i], d) {
        assert ab[|a| + i] == b[i];
      }
    }
  }

  /** A one-tree conjunction list means that tree. */
  lemma AllHoldSingle(e: Expr, d: Doc)
    ensures AllHold([e], d) <==> Holds(e, d)
  {
    assert [e][0] == e;
  }

  predicate OwnerIs(d: Doc, r: Ref)
  {
    "owner" in d.body && d.body["owner"] == RefVal(r)
  }

  /** The constraints of a specification other than its `owner` shorthand. */
  predicate MatchesIgnoringOwner(spec: QuerySpec, d: Doc)
  {
    (spec.ids.None? || d.id in spec.ids.value) && AllHold(spec.matches, d)
  }

  /** Whether a document satisfies a specification. */
  predicate Matches(spec: QuerySpec, d: Doc)
  {
    MatchesIgnoringOwner(spec, d) && (spec.owner.None? || OwnerIs(d, spec.owner.value))
  }

  function MatchesSpec(spec: QuerySpec): Doc -> bool
  {
    (d: Doc) => Matches(spec, d)
  }

  /** The elements of `s` that satisfy `p`, in order. */
  function Filter<T(!new)>(s: seq<T>, p: T -> bool): (r: seq<T>)
    ensures |r| <= |s|
    ensures forall x :: x in r <==> x in s && p(x)
  {
    if s == [] then []
    else
      var n := |s|;
      assert s == s[..n - 1] + [s[n - 1]];
      Filter(s[..n - 1], p) + (if p(s[n - 1]) then [s[n - 1]] else [])
  }

  /** No two documents share an `_id`. */
  predicate UniqueIds(ds: seq<Doc>)
  {
    forall i, j | 0 <= i < j < |ds| :: ds[i].id != ds[j].id
  }

  lemma UniqueIdsSnoc(ds: seq<Doc>, x: Doc)
    requires UniqueIds(ds)
    requires forall y | y in ds :: y.id != x.id
    ensures UniqueIds(ds + [x])
  {
    var t := ds + [x];
    forall i, j | 0 <= i < j < |t| ensures t[i].id != t[j].id {
      if j == |ds| {
        assert t[i] in ds;
      }
    }
  }

  /** Filtering keeps the store's unique-id property. */
  lemma {:induction false} FilterKeepsUniqueIds(ds: seq<Doc>, p: Doc -> bool)
    ensures UniqueIds(ds) ==> UniqueIds(Filter(ds, p))
  {
    if ds != [] && UniqueIds(ds) {
      var n := |ds|;
      var pre := ds[..n - 1];
      assert UniqueIds(pre);
      FilterKeepsUniqueIds(pre, p);
      if p(ds[n - 1]) {
        forall y | y in Filter(pre, p) ensures y.id != ds[n - 1].id {
          var i :| 0 <= i < |pre| && pre[i] == y;
        }
        UniqueIdsSnoc(Filter(pre, p), ds[n - 1]);
      }
    }
  }

  /**
   * What the store's `find` returns for a specification: the matching
   * documents in store order, cut to the limit when a positive one is given
   * (a limit of zero means no limit).
   */
  function Select(docs: seq<Doc>, spec: QuerySpec): (r: seq<Doc>)
    ensures forall d | d in r :: d in docs && Matches(spec, d)
    ensures forall d | d in docs && Matches(spec, d) && (spec.limit.None? || spec.limit.value == 0) :: d in r
    ensures spec.limit.Some? && spec.limit.value > 0 ==> |r| <= spec.limit.value
    ensures var all := Filter(docs, MatchesSpec(spec));
      && |r| == (if spec.limit.Some? && 0 < spec.limit.value < |all| then spec.limit.value else |all|)
      && r == all[..|r|]
    ensures UniqueIds(docs) ==> UniqueIds(r)
  {
    var m := Filter(docs, MatchesSpec(spec));
    FilterKeepsUniqueIds(docs, MatchesSpec(spec));
    if spec.limit.Some? && 0 < spec.limit.value < |m| then
      assert forall d | d in m[..spec.limit.value] :: d in m;
      m[..spec.limit.value]
    else
      m
  }
}

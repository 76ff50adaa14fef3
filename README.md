# bouncer-db authorization core, in Dafny

This project models the authorization layer of bouncer-db. A request is a
*bundle* of *crufls*: create, remove, update, find and lookup operations, each
on one collection type. A *bouncer* hands each crufl whose type it serves to a
*crufler*, a handler bound to one collection. The handler validates the
messages, asks its policy hooks (`canRead`, `canNew`, `canChange`,
`filterQuerySpec`, `redactWrite`) and reads or writes the document store.

There are three handler policies:

- the base crufler denies every capability and cannot prepare writes;
- the administrative crufler allows everything;
- the ownership crufler decides from its permission flags, the actor's
  relations to the record, and the ACL records.

There are three bouncers: the base one serves no type, and the ownership and
administrative ones serve every type they hold a collection for.

Modules, in dependency order:

- `Values`: field values, client messages, stored records, result envelopes,
  actors, raw permission objects, errors, and ObjectId parsing.
- `Query`: the query specification (`Expr = Equals | And | Or`, id list,
  `owner` shorthand, limit), its meaning on a record, and what the store's
  `find` returns.
- `Store`: the collection as a class. Its records are a `seq<Doc>` in natural
  order with unique ObjectIds. It has methods for batch insert, query, delete
  and the revision-guarded save.
- `Base`: the expression-level part of crufler.js (validation, metadata,
  redaction, `own`/`owns`).
- `AdminCrufler`, `OwnerCrufler`: the two concrete policies.
- `Handlers`: the three policies behind one interface, and the read filter of
  `findByOid`.
- `Verbs`: each verb as a function of the store's contents, with lemmas that
  say what its answer and the store afterwards mean.
- `Cruflers`: the handler class. Each verb is a method that loops over
  messages and found records and changes the collection in place, and each is
  proved equal to its `Verbs` function.
- `Bouncers`: the bouncer class with its `freshen` loop over a bundle.

## Model

| member | source | states |
|---|---|---|
| Values.ParseOid | src/bouncer/crufler.js:32-46 | an id parses exactly when it is 24 hexadecimal digits; the result is its canonical lower-case form; anything else is the `MessageFail: malformed id` path |
| Values.CanonicalOidParses | src/bouncer/crufler.js:32-46 | an id the store hands out parses back to itself |
| Values.ParseOidIdempotent | src/bouncer/crufler.js:32-46 | parsing a parsed id changes nothing |
| Query.Select | src/bouncer/crufler.js:411-425 | the store query returns the stored records that satisfy the specification, in store order: all of them without a limit, and the first N of them with a positive limit N; unique ids are kept |
| Query.Filter | src/bouncer/crufler.js:466-471 | filtering keeps exactly the elements satisfying the test, and never grows the list |
| Query.FilterKeepsUniqueIds | src/bouncer/crufler.js:466-471 | filtering found records keeps their ids distinct |
| Query.AllHoldConcat | src/bouncer/owner-crufler.js:131-137 | a `match` list made of two parts holds exactly when both parts hold |
| Store.Without | src/bouncer/crufler.js:243 | deleting a record keeps every other record, and only those |
| Store.Replaced | src/bouncer/crufler.js:318-319 | a save overwrites the record with that id in place and leaves every other record alone |
| Store.Collection.InsertMany | src/bouncer/crufler.js:185 | all payloads are stored at revision 0 under fresh ids, or, on a schema rejection or a taken id, none is and the store is unchanged |
| Store.Collection.Find | src/bouncer/crufler.js:411-425 | the query result is the specification's selection of the current records |
| Store.Collection.RemoveDoc | src/bouncer/crufler.js:243 | the record is deleted unless the store fails, and the store is otherwise unchanged |
| Store.Collection.Save | src/bouncer/crufler.js:318-319 | the incremented record is written only over the stored revision one below it; otherwise the store is unchanged |
| Base.ValidId | src/bouncer/crufler.js:22-29 | a message is valid exactly when it is an object whose `$meta` names the handler's type and carries a string id |
| Base.GenMeta | src/bouncer/crufler.js:48-61 | metadata carry the handler's type, the record's `_id` and `__v`, no error, and the removed flag as asked |
| Base.RedactRead | src/bouncer/crufler.js:97-110 | a record reads as all its fields plus `_id` and `__v` |
| Base.MergedSeeded | src/bouncer/crufler.js:386-390 | merging a record into a seeded envelope leaves no trace of the seed: the envelope is the record's fields under fresh metadata |
| Base.StripStorageFields | src/bouncer/owner-crufler.js:351-354 | a prepared write keeps every field of an object message except `_id`, `__v` and `$meta`; any other message gives an empty object (a string's character-index properties are left out) |
| Base.StripStorageFieldsIdempotent | src/bouncer/owner-crufler.js:351-354 | preparing a prepared write again changes nothing |
| Base.Own | src/bouncer/crufler.js:475-479 | `own` sets `owner` to the actor's `{type, id}` and keeps every other field and the `$meta` block |
| Base.Owns | src/bouncer/crufler.js:482-492 | `owns` holds exactly when the owner reference names the actor and both type and id are non-empty; a null owner throws |
| Base.OwnThenOwns | src/bouncer/crufler.js:475-492 | an actor with a non-empty type and id owns whatever it has stamped |
| OwnerCrufler.Normalize | src/bouncer/owner-crufler.js:18-29 | the permission set is three booleans, each the truthiness of its flag; a non-object gives all false |
| OwnerCrufler.NormalizeIdempotent | src/bouncer/owner-crufler.js:18-29 | normalising a normalised set changes nothing |
| OwnerCrufler.NewConfig | src/bouncer/owner-crufler.js:11-31 | the constructed handler keeps the actor and collections and holds the normalised permissions |
| OwnerCrufler.AclFilters | src/bouncer/owner-crufler.js:104-110 | one `_id` equality per ACL resource found, in order |
| OwnerCrufler.FilteredSpec | src/bouncer/owner-crufler.js:34-145 | the rewrite never touches the id list or the limit |
| OwnerCrufler.PushSubActorFilters | src/bouncer/owner-crufler.js:59-93 | one round keeps the filters already pushed and appends at most four: the owner filter exactly when the sub-actor is marked owner or is a user, identity or device, and the admins, members and devices filters each exactly when its flag is set |
| OwnerCrufler.CollectActorFilters | src/bouncer/owner-crufler.js:54-94 | the filter loop builds exactly the sub-actors' filters, in sub-actor order |
| OwnerCrufler.FilterQuerySpec | src/bouncer/owner-crufler.js:34-145 | the imperative rewrite computes the specified rewritten query |
| OwnerCrufler.FilteredSpecUnfiltered | src/bouncer/owner-crufler.js:41-49 | ACL queries and queries on the actor's own type are returned unchanged |
| OwnerCrufler.FilteredSpecFallsBackToOwner | src/bouncer/owner-crufler.js:114-119 | without filters the rewritten query admits exactly the records the caller's ids and match trees admit and the actor owns |
| OwnerCrufler.FilteredSpecIntersects | src/bouncer/owner-crufler.js:121-138 | with filters the rewritten query admits exactly what the caller's query admits and some filter admits |
| OwnerCrufler.FilteredSpecOnlyAdmitsRelated | src/bouncer/owner-crufler.js:50-140 | every record a rewritten query admits matches a relation or ACL filter, or is owned by the actor |
| OwnerCrufler.FilteredSpecNarrows | src/bouncer/owner-crufler.js:114-140 | the rewrite never widens the caller's ids and match trees |
| OwnerCrufler.ActorFiltersContain | src/bouncer/owner-crufler.js:56-94 | every filter of every sub-actor ends up in the filter list |
| OwnerCrufler.OwnerFilterPushed | src/bouncer/owner-crufler.js:79-81 | a sub-actor marked owner, or of type user, identity or device, contributes an owner filter |
| OwnerCrufler.IsAllowedCollection | src/bouncer/owner-crufler.js:147-153 | `acl` is never allowed; any other name is allowed exactly when it is a recognised collection |
| OwnerCrufler.AclCanRead | src/bouncer/owner-crufler.js:168-209 | an ACL record that cannot be found is not readable; the only failure is a thrown TypeError |
| OwnerCrufler.CanRead | src/bouncer/owner-crufler.js:156-225 | the actor's own record is readable; on the `acl` type the ACL rule decides; otherwise reading needs the `read` flag and either a relation to the record or an ACL grant |
| OwnerCrufler.AclCanNew | src/bouncer/owner-crufler.js:231-262 | a falsy message is allowed; an allowed ACL record names a recognised collection's resource that no ACL governs yet |
| OwnerCrufler.CanNew | src/bouncer/owner-crufler.js:228-270 | outside `acl`, creating is the `new` flag, and also ownership of the record when one is given |
| OwnerCrufler.AclCanChange | src/bouncer/owner-crufler.js:280-333 | an allowed ACL change keeps the resource id and type and targets a recognised collection; a record without `resource` throws |
| OwnerCrufler.CanChange | src/bouncer/owner-crufler.js:273-349 | the actor's own record follows the `change` flag; `acl` follows the ACL rule; otherwise the `change` flag and either ownership of both versions or an ACL `change` grant |
| OwnerCrufler.PermissionFlagsGate | src/bouncer/owner-crufler.js:211-348 | outside `acl` and the actor's own record, reading, creating and changing each need their flag, whatever the ACL grants |
| Handlers.RedactWrite | src/bouncer/crufler.js:87-94 | the base handler throws; the other policies keep every field but `_id`, `__v` and `$meta` |
| Handlers.FilteredSpec | src/bouncer/crufler.js:82-84 | no policy's rewrite changes the id list or the limit |
| Handlers.FilterQuerySpec | src/bouncer/crufler.js:82-84 | dispatching the rewrite computes the policy's rewritten query |
| Handlers.FilteredSpecNarrows | src/bouncer/owner-crufler.js:114-140 | under every policy the rewritten query admits nothing the caller's ids and match trees exclude |
| Handlers.DenyAllDenies | src/bouncer/crufler.js:66-94 | the base handler refuses reading, creating and changing, throws on `redactWrite` and passes queries through |
| Handlers.AdminAllows | src/bouncer/admin-crufler.js:15-35 | the administrative handler allows every read, creation and change and passes queries through |
| Handlers.ReadFilterMeaning | src/bouncer/crufler.js:466-471 | the read filter keeps exactly the readable records in store order, and rejects exactly when some `canRead` throws |
| Handlers.ReadFilterErrSticks | src/bouncer/crufler.js:466-471 | once a `canRead` throws, the rest of the batch does not change the rejection |
| Handlers.CanNewAll | src/bouncer/crufler.js:172-175 | all messages are permitted exactly when every `canNew` allows; it rejects exactly when some `canNew` throws |
| Handlers.RedactWriteAll | src/bouncer/crufler.js:182 | preparing a batch fails exactly for the base handler on a non-empty batch; otherwise each payload is that message's prepared write |
| Base.ValidIds | src/bouncer/crufler.js:214-226 | every listed id is the id of a valid message, and there is one per message exactly when every message is valid |
| Verbs.Seed | src/bouncer/crufler.js:214-226 | the seeding loop makes at most one envelope per message and fails only with a malformed id, a malformed message or a refused `redactWrite` |
| Verbs.SeedShape | src/bouncer/crufler.js:214-226 | seeding makes one `IdFail` envelope per valid message with its id, in input order, and maps each ObjectId to an envelope with that ObjectId after which no envelope has it, so the last one seeded |
| Verbs.SeedPayload | src/bouncer/crufler.js:274-290 | in `update` each seeded ObjectId has a payload: the prepared write of a valid message naming it |
| Verbs.SeedFails | src/bouncer/crufler.js:214-370 | `remove` rejects exactly when a valid message's id is not an ObjectId; `update` also on any valid message when the handler cannot prepare writes; `lookup` exactly when some message is invalid or has such an id; the error is the first rejected message's: `MessageFail: malformed message` for an invalid one, `MessageFail: malformed id` for a bad id, and `NotImplemented` from the base handler's `redactWrite` otherwise |
| Verbs.Finish | src/bouncer/crufler.js:264 | a verb answers with its envelopes, or with the error that ended its loop, and leaves the store as the loop did |
| Verbs.FoundForSound | src/bouncer/crufler.js:443-472 | `findByOid` returns only stored, readable records whose ids were asked for, with no id twice |
| Verbs.RemoveMeaning | src/bouncer/crufler.js:209-265 | one envelope per valid message, each still `IdFail`, `PermissionFail` when the record may not be changed, `BouncerFail` when the delete failed, or the removed record; the store loses exactly the records reported removed and nothing else |
| Verbs.RemoveComplete | src/bouncer/crufler.js:229-262 | when `remove` answers, every record `findByOid` returned has its report in the envelope seeded last for its ObjectId: `PermissionFail` if it may not be changed, `BouncerFail` if the delete failed (the record stays), otherwise the record marked removed (and it is gone); every other envelope stays `IdFail` |
| Verbs.Patched | src/bouncer/crufler.js:308-309 | the patched record keeps its id and revision and has the stored fields overwritten by the payload's |
| Verbs.Saved | src/bouncer/crufler.js:318-319 | the saved record is the patched one, one revision later |
| Verbs.UpdateMeaning | src/bouncer/crufler.js:267-342 | one envelope per valid message, each still `IdFail`, `PermissionFail` when the actor may not change the record into its patched form, `BouncerFail` when the save failed, or the saved record; the store keeps its records in place, with only those reported saved patched and one revision up |
| Verbs.UpdateComplete | src/bouncer/crufler.js:293-339 | when `update` answers, every record `findByOid` returned has its report in the envelope seeded last for its ObjectId: `PermissionFail` if it may not be changed into its patched form, `BouncerFail` if the save failed, otherwise the saved record one revision up, which the store holds in its place; every other envelope stays `IdFail` and every other record is unchanged |
| Verbs.LookupMeaning | src/bouncer/crufler.js:344-399 | every message is valid, each has one envelope in input order, and each envelope is still `IdFail` or a readable stored record with that ObjectId |
| Verbs.LookupComplete | src/bouncer/crufler.js:373-396 | every record `findByOid` returns is merged into the envelope its ObjectId is indexed to, after which no envelope has that ObjectId, so the last one seeded; every other envelope, for an id not found or an earlier duplicate, stays `IdFail` |
| Verbs.Project | src/bouncer/crufler.js:422 | the projection keeps `_id`, `__v` and `owner` only |
| Verbs.MetaOnly | src/bouncer/crufler.js:427-430 | a `find` envelope is metadata only |
| Verbs.FindSound | src/bouncer/crufler.js:401-441 | `find` fails only with `QueryFail` and reports only the metadata of stored records that satisfy the caller's query and whose projection the actor may read |
| Verbs.FindComplete | src/bouncer/crufler.js:401-441 | `find` reports every record the store's query returns for the rewritten specification whose projection the actor may read, so with a limit the first matches in store order and without one every stored record the rewritten query admits |
| Verbs.CreateMeaning | src/bouncer/crufler.js:169-207 | all or nothing: a failed create leaves the store unchanged; a denied message gives `PermissionFail`; once permitted, the only failure is `SchemaFail`; success stores one revision-0 record per message with the prepared fields and answers with those records in order |
| Cruflers.Crufler.FindByOid | src/bouncer/crufler.js:443-472 | fetching by ids through the filtered query and the read filter computes `findByOid`'s result |
| Cruflers.Crufler.KeepReadable | src/bouncer/crufler.js:463-471 | the read-filter loop computes the read filter |
| Cruflers.Crufler.SeedBatch | src/bouncer/crufler.js:214-226 | the seeding loop computes the seeding |
| Cruflers.Crufler.Create | src/bouncer/crufler.js:169-207 | the answer and the new store are those `create` is specified to give |
| Cruflers.Crufler.Remove | src/bouncer/crufler.js:209-265 | the answer and the new store are those `remove` is specified to give |
| Cruflers.Crufler.RemoveFound | src/bouncer/crufler.js:229-262 | the delete loop, with its early exit on a throwing `canChange`, computes the per-record pass |
| Cruflers.Crufler.Update | src/bouncer/crufler.js:267-342 | the answer and the new store are those `update` is specified to give |
| Cruflers.Crufler.UpdateFound | src/bouncer/crufler.js:293-339 | the patch-and-save loop, with its early exit, computes the per-record pass |
| Cruflers.Crufler.Lookup | src/bouncer/crufler.js:344-399 | `lookup` gives the specified answer and changes nothing |
| Cruflers.Crufler.LookupFound | src/bouncer/crufler.js:373-396 | the merge loop computes the per-record pass |
| Cruflers.Crufler.Find | src/bouncer/crufler.js:401-441 | `find` gives the specified answer and changes nothing |
| Cruflers.Crufler.Freshen | src/bouncer/crufler.js:116-166 | the result echoes op, type and uuid and is complete; it has messages or an error, never both; empty messages give `CheckFail: no messages` and an unknown op `CheckFail`, both without touching the store; otherwise it reports the verb's answer or its error message, with the store the verb leaves |
| Bouncers.Bouncer.Resolvers | src/bouncer/owner-bouncer.js:14-32 | the handler sees, for every collection of the request, that collection's resolver result |
| Bouncers.Bouncer.CruflerFor | src/bouncer/owner-bouncer.js:14-32 | a handler exactly for a listed type (a type the bouncer holds a collection for), none from the base bouncer; the administrative bouncer builds an administrative handler; the ownership bouncer builds one for its actor, with all three permissions when the collection has no resolver and the normalised resolver result otherwise |
| Bouncers.Bouncer.Listed | src/bouncer/bouncer.js:28-35 | the dispatched crufls are exactly the bundle's crufls of listed types, filtered in bundle order; the base bouncer dispatches none |
| Bouncers.Bouncer.WrittenMeaning | src/bouncer/bouncer.js:28-35 | a collection is written exactly when some dispatched crufl of a writing verb targets it |
| Bouncers.Bouncer.Freshen | src/bouncer/bouncer.js:26-44 | the pack keeps the bundle's uuid and is complete; it holds one result per dispatched crufl, in bundle order, each answering its crufl; a collection that no dispatched writing crufl targets keeps its records |
| Bouncers.Bouncer.FreshenOne | src/bouncer/bouncer.js:29-31 | a dispatched crufl is answered by a new handler for its collection; a read reports what the handler gives on the collection's records and leaves them alone; `create`, `remove` and `update` report their verb's answer on those records and leave the collection as that verb does |
| Bouncers.AdminBouncerAllows | src/bouncer/admin-bouncer.js:14-22 | the administrative bouncer's handlers allow every read, creation and change, whoever the caller |
| Bouncers.BaseBouncerServesNothing | src/bouncer/bouncer.js:15-17 | the base bouncer dispatches nothing and writes nothing, so its pack's results are empty |

## Left out

- The document store is a collection of records in natural order, not a map
  keyed by id, because `find` answers in store order. Unique ids are an
  invariant of the collection.
- Sorting (`hasSort`/`getSort`) is not modelled; results are in natural order.
- The query compiler is not part of this model. The `Expr` tree has its own
  meaning: a two-step path into an array of references matches when any
  element matches.
- `find` with a missing specification is not modelled; a specification is
  always given.
- ObjectId parsing accepts only 24-digit hexadecimal strings. The 12-byte
  string form and number arguments are left out.
- The ACL model's helpers (`isOwner`, `isMember`, `isAllowed`, `findById`,
  `aclByResource`, `aclResourcesByActors`) and the cross-collection `findById`
  are fields of an `AclOracle`. They are fixed for the whole request.
- A collection's `permissions(context)` resolver is a constant result per
  collection. A resolver that rejects is not modelled.
- `Promise.all` is modelled as sequential evaluation in input order. When
  several hooks throw, the first in input order is reported. Parallel
  interleaving of the verbs of one bundle is left out.
- A JavaScript TypeError (a property read on null or undefined, or a call of a
  missing resolver) is the error `TypeError` with the message "TypeError". The
  engine's exact wording is not modelled.
- Debug logging and the database connection are not part of this model.
- `create`'s `BouncerFail` branch for an inserted count that differs from the
  message count cannot occur: the modelled `insertMany` stores all records or
  none.
- Base.StripStorageFields: a message that is not an object is a primitive
  with no fields. The rest spread in `redactWrite` copies a non-empty
  string's character-index properties (`"ab"` gives `{0: 'a', 1: 'b'}`), and
  `create` prepares messages without validating them; the model prepares an
  empty object for a string message instead.
- Store.Collection.InsertMany: all or nothing also when a generated id is
  already taken. MongoDB's ordered insert keeps the documents inserted before
  the duplicate; here none is kept, and `create` still answers `SchemaFail`.
- Bouncers.Bouncer.Listed: the ownership and administrative bouncers test
  `type in this.collections` on a plain object, so inherited names such as
  `constructor` or `toString` are listed too. A crufl of such a type is
  dispatched to a handler over a non-collection whose verbs throw, and the
  pack carries an error result for it. The model lists only the types the
  bouncer holds a collection for, so such a crufl gets no result.
- Bouncers.Bouncer.CruflerFor: the ownership bouncer reads
  `this.collections[type].permissions` before it tests the list
  (src/bouncer/owner-bouncer.js:18-23), so on an unlisted type it throws a
  TypeError instead of returning null. `freshen` only asks for listed types,
  so that path is not reached; the model returns no handler there.
- In `remove`, `update` and `lookup`, two messages naming the same ObjectId
  share one found record. Only the envelope seeded last for that id is
  rewritten; the earlier one stays `IdFail`. This is modelled as written.
- The self-id filter of the ownership rewrite tests `spec.length == 1` on a
  specification object, which has no `length`, so that filter is never
  pushed. It is modelled as written, by leaving it out.
- `find` reads through the projection `{_id, __v, owner}`. An ownership
  handler therefore cannot see members or devices relations when filtering
  `find` results. This is modelled as written.
- The `if (id)` test in `find` always holds for a fetched record, and the
  bouncer's filter of null results never removes anything. Neither has its
  own branch.
- `own` of the administrative and ownership handlers returns nothing and
  changes nothing; no verb calls `own` or `owns`.
- Bouncers.Bouncer.Freshen: states per-position answers for the whole
  bundle, but ties each read result to the store only through
  Bouncers.Bouncer.FreshenOne, because the store a crufl sees depends on the
  crufls before it.

/**
 * The administrative handler (admin-crufler.js): every capability check
 * passes, queries are not filtered, writes lose only storage fields, and
 * ownership is neither stamped nor checked. It is built without an actor.
 */
module AdminCrufler {
  import opened Values
  import opened Query
  import Base

  function CanRead(d: Doc): bool
  {
    true
  }

  function CanNew(m: Msg): bool
  {
    true
  }

  function CanChange(prev: Doc, next: Doc): bool
  {
    true
  }

  function FilteredSpec(spec: QuerySpec): QuerySpec
  {
    spec
  }

  function RedactWrite(m: Msg): map<string, Value>
  {
    Base.StripStorageFields(m)
  }

  /** `own` does nothing and returns nothing; the message is left as it is. */
  function Own(m: Msg): Option<Msg>
  {
    None
  }

  function Owns(m: Msg): bool
  {
    true
  }
}

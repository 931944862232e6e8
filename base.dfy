/** Option, Result and the three-way outcome of a Python `dict` lookup. */
module Base {

  datatype Option<T> = None | Some(value: T)

  datatype Result<T, E> = Ok(value: T) | Err(error: E)

  /** What a key of a decoded JSON object or of an info dictionary holds:
      absent, present with `null`/`None`, or present with a value. */
  datatype Field<T> = Missing | Null | Present(value: T)

  /** `r` is what `d.get(key, default)` gives for a key holding `f`: the
      default only for an absent key, `None` for a key present with `None`,
      the value otherwise. */
  predicate Defaulted<T(==)>(f: Field<T>, default: T, r: Option<T>)
  {
    (f.Missing? ==> r == Some(default)) &&
    (f.Null? ==> r == None) &&
    (f.Present? ==> r == Some(f.value))
  }

  /** Python's `d.get(key, default)`. */
  function GetOr<T(==)>(f: Field<T>, default: T): (r: Option<T>)
    ensures Defaulted(f, default, r)
  {
    match f
    case Missing => Some(default)
    case Null => None
    case Present(v) => Some(v)
  }

  /** Python's `d.get(key)` with no default: `None` for an absent key as for
      one present with `None`. */
  function GetOrNone<T>(f: Field<T>): (r: Option<T>)
    ensures r.Some? <==> f.Present?
    ensures r.Some? ==> r.value == f.value
  {
    match f
    case Present(v) => Some(v)
    case _ => None
  }

  /** How a Python `Optional` value is written into a JSON object that always
      carries the key (a pydantic model serialises `None` as `null`). */
  function AsField<T>(o: Option<T>): Field<T>
  {
    match o
    case Some(v) => Present(v)
    case None => Null
  }

  lemma GetOrAsField<T>(o: Option<T>, default: T)
    ensures GetOr(AsField(o), default) == o
    ensures GetOrNone(AsField(o)) == o
  {
  }
}

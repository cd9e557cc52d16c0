/** Small value types shared by the whole model: an ordinary option, and the
    three-state view Python's `dict.get` gives of a JSON object member. */
module Values {

  /** The usual Some/None wrapper; `None` plays the role of Python's `None`
      when a function "returns nothing". */
  datatype Option<T> = None | Some(value: T) {

    /** The wrapped value, or `default` when there is none. */
    function GetOr(default: T): T {
      match this
      case Some(v) => v
      case None => default
    }
  }

  /** A member of a parsed JSON object: the key is missing, the key maps to an
      explicit `null`, or the key maps to a value. Missing and `null` differ
      whenever the source reads the member with a default, `obj.get(key, d)`:
      a missing key yields `d`, an explicit `null` yields `None`. */
  datatype Field<T> = Absent | Null | Val(value: T)

  /** Python truthiness of `obj.get(key, default)` for a boolean member. */
  function TruthyOr(f: Field<bool>, default: bool): bool {
    match f
    case Absent => default
    case Null => false
    case Val(b) => b
  }

  /** Python truthiness of `obj.get(key)` for a string member: only a present,
      non-empty string is truthy. */
  predicate NonEmptyString(f: Field<string>) {
    f.Val? && f.value != ""
  }

  /** The value `obj.get(key)` returns for a member, with missing and `null`
      both read as `None`. */
  function AsOption<T>(f: Field<T>): (r: Option<T>)
    ensures r.Some? <==> f.Val?
    ensures r.Some? ==> r.value == f.value
  {
    match f
    case Val(v) => Some(v)
    case _ => None
  }
}

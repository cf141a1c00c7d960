/** Shared vocabulary of the catalog store: identifiers, nullable text,
    option and result wrappers. */
module Common {

  /** A row identifier (a UUID in the store); 0 plays the part of `uuid.Nil`. */
  type Id = nat

  const Nil: Id := 0

  datatype Option<+T> = None | Some(value: T)

  /** A nullable text column (`pgtype.Text`): `str` is what `.String` reads,
      `valid` is false for SQL NULL. */
  datatype Text = Text(str: string, valid: bool)

  const Null: Text := Text("", false)

  /** A non-NULL text value, as written when a Go `string` is bound to a column. */
  function Str(s: string): (t: Text)
    ensures t.valid && t.str == s
  {
    Text(s, true)
  }

  function Max(a: nat, b: nat): nat {
    if a < b then b else a
  }

  /** The outcome of a service call: a value or the statement that failed. */
  datatype Result<+T, +E> = Ok(value: T) | Err(error: E)
}

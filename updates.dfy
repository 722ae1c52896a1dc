/**
 * Updates as handlers see them. An update is an arbitrary Python object; the
 * model keeps only what the two handlers look at: whether it is a `str` (and
 * then its text) and, otherwise, the identity of its class.
 */
module Updates {

  /** Identity of a Python class, compared with `is`. */
  type TypeId = nat

  /** The class `str`. */
  const StrType: TypeId := 0

  /** The class of an update that is not a `str`. */
  type ObjectType = t: TypeId | t != StrType witness 1

  datatype Update =
    | Text(text: string)
    | Object(cls: ObjectType)

  /** `type(update)`: the exact class of the update. */
  function TypeOf(u: Update): (t: TypeId)
    ensures t == StrType <==> u.Text?
  {
    match u
    case Text(_) => StrType
    case Object(c) => c
  }

}

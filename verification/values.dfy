/** The scalar values that flow between the graph store, the entity records and the renderers. */
module Values {
  import opened Wrappers
  import opened PyStr

  /** A property value or a result-row cell.

      Floats are carried as the text Python's `str()` gives them; any other object (a list, a dict, a
      date) is carried as its `str()` text together with its truthiness. */
  datatype Value =
    | Null
    | Bool(b: bool)
    | Int(i: int)
    | Float(repr: string)
    | Str(s: string)
    | Other(text: string, truthy: bool)

  /** Python's `str(v)`, which is also what an f-string interpolation `{v}` produces. */
  function Render(v: Value): (r: string)
    ensures v.Null? ==> r == "None"
    ensures v.Bool? ==> (r == "True" <==> v.b) && (r == "False" <==> !v.b)
    ensures v.Str? ==> r == v.s
    ensures v.Int? && v.i >= 0 ==> ParseInt(r) == Some(v.i)
    ensures v.Int? && v.i < 0 ==> |r| > 1 && r[0] == '-' && ParseInt(r[1..]) == Some(-v.i)
  {
    match v
    case Null => "None"
    case Bool(b) => if b then "True" else "False"
    case Int(i) =>
      if i >= 0 then ParseIntOfString(i); IntToString(i)
      else ParseIntOfString(-i); assert ("-" + NatToString(-i))[1..] == NatToString(-i); IntToString(i)
    case Float(repr) => repr
    case Str(s) => s
    case Other(text, _) => text
  }

  /** Python's truth value of `v` (what `if v:` tests). */
  predicate Truthy(v: Value) {
    match v
    case Null => false
    case Bool(b) => b
    case Int(i) => i != 0
    case Float(repr) => repr != "0.0" && repr != "-0.0"
    case Str(s) => s != ""
    case Other(_, t) => t
  }
}

/** PHP values as far as the HTTP facade uses them: nullable strings and
    integers, booleans, lists of header lines and string-keyed option arrays,
    together with PHP's notion of truthiness that drives every `?:` fallback. */
module PhpValues {

  datatype Option<+T> = None | Some(value: T)

  /** PHP strings are byte strings; a byte is an octet value. */
  type byte = x: int | 0 <= x < 256

  /** A string with no line feed in it. */
  predicate SingleLine(s: string) {
    forall m | 0 <= m < |s| :: s[m] != '\n'
  }

  /** A PHP value. `Lines` is a list array of strings (a header list);
      `Assoc` is a string-keyed array such as a stream-options array. */
  datatype Value =
    | Null
    | Bool(b: bool)
    | Int(i: int)
    | Str(s: string)
    | Lines(lines: seq<string>)
    | Assoc(entries: map<string, Value>)

  /** PHP's boolean conversion: null, false, 0, "", "0" and empty arrays are
      falsy, everything else is truthy. */
  predicate Truthy(v: Value)
    ensures Truthy(v) <==> v !in {Null, Bool(false), Int(0), Str(""), Str("0"), Lines([]), Assoc(map[])}
  {
    match v
    case Null => false
    case Bool(b) => b
    case Int(i) => i != 0
    case Str(s) => s != "" && s != "0"
    case Lines(ls) => ls != []
    case Assoc(m) => m != map[]
  }

  /** A parameter typed `string|null`, seen as a PHP value. */
  function StrOrNull(o: Option<string>): Value {
    match o
    case None => Null
    case Some(s) => Str(s)
  }

  /** A parameter typed `int|null`, seen as a PHP value. */
  function IntOrNull(o: Option<int>): Value {
    match o
    case None => Null
    case Some(i) => Int(i)
  }

  /** `$call ?: $default` for nullable strings. */
  function OrElse(call: Option<string>, default: Option<string>): (r: Option<string>)
    ensures Truthy(StrOrNull(call)) ==> r == call
    ensures !Truthy(StrOrNull(call)) ==> r == default
  {
    if Truthy(StrOrNull(call)) then call else default
  }

  /** The falsy strings are exactly "" and "0"; null is falsy too. */
  lemma {:induction false} FalsyStrings(o: Option<string>)
    ensures !Truthy(StrOrNull(o)) <==> (o == None || o == Some("") || o == Some("0"))
  {
  }

  /** `?:` chooses the per-call value only when it is a non-null string
      other than "" and "0", so a null result needs both sides falsy and the
      default null. */
  lemma {:induction false} OrElseNull(call: Option<string>, default: Option<string>)
    ensures OrElse(call, default) == None <==>
              (default == None && (call == None || call == Some("") || call == Some("0")))
  {
    FalsyStrings(call);
  }
}

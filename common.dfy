/** Values shared by the whole model: optional values, the `{success, error}`
    result every server action returns, and the few JavaScript string
    operations the components rely on. */
module Common {

  /** A nullable column or an optional argument (`null` / `undefined`). */
  datatype Option<+T> = None | Some(value: T)

  /** The `{ success: true, data }` / `{ success: false, error }` object that
      every server action returns. Actions without a payload use `Result<()>`. */
  datatype Result<+T> = Success(data: T) | Failure(error: string)

  /** What a component does once an action returns: reload the page's
      data, go to another page, or show a browser alert with a message. */
  datatype Outcome = Refresh | Navigate(path: string) | Alert(message: string)

  /** `s.startsWith(p)`, and equally a regular expression anchored with `^`
      that matches the literal `p`. */
  predicate StartsWith(s: string, p: string)
  {
    |p| <= |s| && s[..|p|] == p
  }

  /** `a || b` on strings: the empty string is falsy. */
  function OrElse(a: string, b: string): (r: string)
    ensures a != "" ==> r == a
    ensures a == "" ==> r == b
  {
    if a != "" then a else b
  }

  /** `s || undefined` (and `s || null`): an empty string becomes absent. */
  function NonEmpty(s: string): (r: Option<string>)
    ensures r == None <==> s == ""
    ensures r.Some? ==> r.value == s
  {
    if s == "" then None else Some(s)
  }

  /** `x || null` on a value that may already be absent. */
  function NonEmptyOpt(o: Option<string>): (r: Option<string>)
    ensures r == None <==> (o == None || o == Some(""))
    ensures r.Some? ==> r == o
  {
    match o
    case None => None
    case Some(s) => NonEmpty(s)
  }

  /** JavaScript's `String.prototype.substring(a, b)`: both indices are clamped
      to the string's length and swapped when the first is larger. */
  function Substring(s: string, a: nat, b: nat): (r: string)
    ensures a <= b <= |s| ==> r == s[a..b]
    ensures |r| <= |s|
  {
    var lo := if a < b then a else b;
    var hi := if a < b then b else a;
    var lo' := if lo < |s| then lo else |s|;
    var hi' := if hi < |s| then hi else |s|;
    s[lo'..hi']
  }

  /** `s.substring(a)`: everything from the clamped index `a` on. */
  function SubstringFrom(s: string, a: nat): (r: string)
    ensures a <= |s| ==> r == s[a..]
    ensures a >= |s| ==> r == ""
  {
    if a < |s| then s[a..] else ""
  }

  /** No value occurs twice. */
  predicate Distinct<T(==)>(s: seq<T>)
  {
    forall i, j :: 0 <= i < j < |s| ==> s[i] != s[j]
  }
}

/** Definitions shared by both pattern engines: character comparison, the
    System.Range value the queries take, the configuration errors the chain
    compilers throw, and the two sentinel patterns None and End, which both
    engines define alike. */
module Common {

  /** char.ToUpperInvariant, restricted to the ASCII letters. */
  function Upper(c: char): (u: char)
    ensures 'a' <= c <= 'z' ==> 'A' <= u <= 'Z' && u as int == c as int - 32
    ensures !('a' <= c <= 'z') ==> u == c
  {
    if 'a' <= c <= 'z' then (c as int - 32) as char else c
  }

  predicate AsciiLetter(c: char)
  {
    'a' <= c <= 'z' || 'A' <= c <= 'Z'
  }

  /** The character test of the literal primitives: exact, or after
      upper-casing both sides. Equal characters always pass; with
      ignoreCasing a lower-case letter also passes against its capital, and
      characters other than letters still have to be equal. */
  predicate SameChar(ignoreCasing: bool, a: char, b: char): (r: bool)
    ensures a == b ==> r
    ensures !ignoreCasing ==> (r <==> a == b)
    ensures ignoreCasing && 'a' <= a <= 'z' ==> (r <==> b == a || b as int == a as int - 32)
    ensures ignoreCasing && !AsciiLetter(a) && !AsciiLetter(b) ==> (r <==> a == b)
  {
    if ignoreCasing then Upper(a) == Upper(b) else a == b
  }

  /** A System.Range whose two indices count from the start. */
  datatype Span = Span(start: nat, end: nat)

  /** Math.Min(str.Length, range.End.Value): the limit every query passes to its chain. */
  function Limit(str: string, range: Span): (n: nat)
    ensures n <= |str| && n <= range.end
    ensures n == |str| || n == range.end
  {
    if range.end < |str| then range.end else |str|
  }

  /** The two configuration errors a chain compiler can throw (an
      InvalidOperationException in RegularPatterns.cs, a plain Exception in
      Deregex.cs, which only knows the first). */
  datatype ConfigError =
    | EndNotLast      // 'End' can only be placed at end of pattern sequence
    | AnyAfterExcept  // 'Any' cannot come immediately after 'Except'

  /** A query's answer, or the configuration error it threw before scanning. */
  datatype Result<T> = Ok(value: T) | Err(error: ConfigError)

  /** The structural check's verdict on a declared pattern sequence. */
  datatype Validation = Pass | Fail(error: ConfigError)

  /** The sentinel a query places after the last declared pattern. */
  datatype Sentinel = NoneSentinel | EndSentinel

  /** Pattern.None: succeeds, without consuming, only at the limit. */
  function NoneLogic(s: nat, e: nat): (r: int)
    ensures r >= 0 <==> s == e
    ensures r >= 0 ==> r == e
    ensures r < 0 ==> r == -1
  {
    if s == e then s else -1
  }

  /** Pattern.End: succeeds wherever it is reached, consuming nothing. */
  function EndLogic(s: nat): (r: int)
    ensures r >= 0 && r == s
  {
    s
  }

  /** The pattern a query places after the last declared one. Neither
      sentinel consumes anything, and only None can fail: off the limit. */
  function SentinelLogic(k: Sentinel, s: nat, e: nat): (r: int)
    ensures r >= 0 ==> r == s
    ensures r < 0 <==> k == NoneSentinel && s != e
    ensures r < 0 ==> r == -1
  {
    match k
    case NoneSentinel => NoneLogic(s, e)
    case EndSentinel => EndLogic(s)
  }
}

/** Option, the model's stand-in for Python's `None` or a value. */
module Wrappers {
  datatype Option<+T> = None | Some(value: T)

  /** The Option as a list of zero or one elements. */
  function ToSeq<T>(o: Option<T>): (s: seq<T>)
    ensures |s| <= 1
    ensures o.Some? <==> |s| == 1
    ensures o.Some? ==> s[0] == o.value
  {
    match o
    case None => []
    case Some(v) => [v]
  }

  /** Python's `s[:n]` for a non-negative `n`: the first `min(n, len(s))` elements. */
  function Prefix<T>(s: seq<T>, n: nat): (r: seq<T>)
    ensures |r| == if |s| < n then |s| else n
    ensures r <= s
  {
    if |s| <= n then s else s[..n]
  }
}

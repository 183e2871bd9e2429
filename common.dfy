/** Small shared vocabulary: an optional value, absolute value on coordinates, bytes. */
module Common {

  /** Python's `None` / value pair for optional results. */
  datatype Option<T> = None | Some(value: T)

  /** An 8-bit byte, as in image data and colour components. */
  newtype byte = x: int | 0 <= x < 256

  /** A non-empty sequence is its prefix followed by its last element. */
  lemma SplitLast<T>(s: seq<T>)
    requires s != []
    ensures s == s[..|s| - 1] + [s[|s| - 1]]
  {
  }

  /** Indexing into a sequence extended by one element. */
  lemma AppendIndex<T>(s: seq<T>, x: T, i: nat)
    requires i <= |s|
    ensures (s + [x])[i] == if i < |s| then s[i] else x
  {
  }

  /** Python's `abs` on a float coordinate. */
  function Abs(x: real): (r: real)
    ensures r >= 0.0
    ensures r == x || r == -x
  {
    if x < 0.0 then -x else x
  }
}

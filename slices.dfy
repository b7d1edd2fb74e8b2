/** Python's slices `s[:n]` and `s[n:]`, which clamp an index past the end
    of the sequence instead of failing. */
module Slices {

  /** `s[:n]`: the first n elements, or all of them if there are fewer. */
  function Take<T>(s: seq<T>, n: nat): (r: seq<T>)
    ensures |r| == if n <= |s| then n else |s|
  {
    if n <= |s| then s[..n] else s
  }

  /** `s[n:]`: the elements after the first n, none if there are fewer. */
  function Drop<T>(s: seq<T>, n: nat): (r: seq<T>)
    ensures |r| == if n <= |s| then |s| - n else 0
  {
    if n <= |s| then s[n..] else []
  }
}

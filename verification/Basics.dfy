/** Types shared by every component of the model. */
module Basics {
  datatype Option<+T> = None | Some(value: T)

  /** One octet of memory or of a stream. */
  type byte = b: int | 0 <= b < 256

  /** A history that only grows at its end: the latest item is outermost. */
  datatype Hist<T> = Start | After(past: Hist<T>, last: T)

  /** `p` is `h` or an earlier state of `h`. */
  ghost predicate Earlier<T>(p: Hist<T>, h: Hist<T>) {
    p == h || (h.After? && Earlier(p, h.past))
  }

  predicate MatchesAt<T(==)>(hay: seq<T>, needle: seq<T>, i: int) {
    0 <= i <= |hay| - |needle| && hay[i..i + |needle|] == needle
  }

  /** C's strstr(hay, needle) != NULL. */
  predicate Contains<T(==)>(hay: seq<T>, needle: seq<T>) {
    exists i | 0 <= i <= |hay| :: MatchesAt(hay, needle, i)
  }
}

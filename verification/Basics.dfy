/** What several components share. */
module Basics {

  datatype Option<T> = None | Some(value: T)

  /** Nanoseconds in a second. */
  const SECOND: int := 1_000_000_000

  /** The XML namespace of Atom 1.0. */
  const ATOM := "http://www.w3.org/2005/Atom"

  /** RFC3339 keeps whole seconds. */
  function WholeSeconds(t: int): (r: int)
    ensures r % SECOND == 0 && r <= t < r + SECOND
  {
    t - t % SECOND
  }

  lemma {:induction false} SubsetSize<T>(a: set<T>, b: set<T>)
    requires a <= b
    ensures |a| <= |b|
  {
    if a != {} {
      var x :| x in a;
      SubsetSize(a - {x}, b - {x});
    }
  }
}

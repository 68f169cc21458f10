/** An optional value: what the sources write as None, null or a missing key. */
module Wrappers {
  datatype Option<+T> = None | Some(value: T)
}

/** Small facts about sequences. */
module Sequences {
  lemma SplitLast<T>(a: seq<T>, b: seq<T>)
    requires b != []
    ensures a + b == (a + b[..|b| - 1]) + [b[|b| - 1]]
  {
  }
}

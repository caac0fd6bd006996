/** Small types and predicates that several modules share. */
module Wrappers {
  datatype Option<+T> = None | Some(value: T)

  /** Two sequences of the same length differ at most inside [lo, hi). */
  ghost predicate SameOutside<T>(a: seq<T>, b: seq<T>, lo: nat, hi: nat) {
    |a| == |b| && forall k :: 0 <= k < |a| && !(lo <= k < hi) ==> b[k] == a[k]
  }
}

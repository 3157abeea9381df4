/** Sequences viewed as the collections they stand for. */
module Seqs {

  /** The distinct elements of a sequence: the Redis fields or scores named
      in one call, repeats collapsed. */
  function Elements<T>(s: seq<T>): set<T> {
    set x | x in s
  }
}

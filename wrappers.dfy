/** The option type used throughout the model for Ruby's `nil`-or-value
    results, and the sequence facts that loops building a result need. */
module Wrappers {
  datatype Option<+T> = None | Some(value: T) {
    function GetOr(default: T): T {
      match this
      case Some(v) => v
      case None => default
    }
  }

  /** Dropping the first of the remaining elements: what an `each` loop
      takes at step `i` and what it leaves. */
  lemma DropOne<T>(xs: seq<T>, i: nat)
    requires i < |xs|
    ensures xs[i..][0] == xs[i] && xs[i..][1..] == xs[i + 1..]
  {
  }

  /** Appending in two steps is appending once. */
  lemma AppendAssoc<T>(a: seq<T>, b: seq<T>, c: seq<T>)
    ensures a + b + c == a + (b + c)
  {
  }

  /** A prefix agrees with the whole on the first `n` elements. */
  lemma PrefixTake<T>(a: seq<T>, b: seq<T>, n: nat)
    requires a <= b && n <= |a|
    ensures a[..n] == b[..n]
  {
  }

  /** The first `n + 1` elements are the head and the first `n` of the tail. */
  lemma TakeHeadTail<T>(a: seq<T>, n: nat)
    requires n < |a|
    ensures a[..n + 1] == [a[0]] + a[1..][..n]
  {
  }
}

/** Small shared definitions: an optional value (Java's `null` or an object)
    and the subsequence relation used to state that a filter keeps order. */
module Common {

  datatype Option<+T> = None | Some(value: T)

  /** `a` is obtained from `b` by deleting zero or more elements,
      keeping the relative order of the elements that remain. */
  predicate IsSubsequence<T(==)>(a: seq<T>, b: seq<T>)
    decreases |b|
  {
    a == [] ||
    (b != [] && ((a[0] == b[0] && IsSubsequence(a[1..], b[1..])) || IsSubsequence(a, b[1..])))
  }
}

/** Small definitions shared by the models. */
module Options {

  /** An optional value: std::optional, std::exception_ptr, a map lookup. */
  datatype Option<+T> = None | Some(value: T)

  /** How a call ends: with a value or with an exception. */
  datatype Outcome<+T, +E> = Returned(value: T) | Threw(error: E)

  /** No element occurs twice. */
  ghost predicate Distinct(s: seq<int>) {
    forall i, j :: 0 <= i < j < |s| ==> s[i] != s[j]
  }

  lemma Assoc<T>(a: seq<T>, b: seq<T>, c: seq<T>)
    ensures (a + b) + c == a + (b + c)
  {
  }
}

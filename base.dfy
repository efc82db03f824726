/** Small definitions every other module shares. */
module Base {

  datatype Option<T> = None | Some(value: T)

  /** Concatenation regroups freely; stated once so that proofs can name the
      regrouping they need instead of searching for it. */
  lemma AppendAssoc<T>(a: seq<T>, b: seq<T>, c: seq<T>)
    ensures a + (b + c) == (a + b) + c
  {
  }
}

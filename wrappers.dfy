/** Stock helpers: Go's nil pointers and "absent" results, and regrouping of appended sequences. */
module Wrappers {
  datatype Option<+T> = None | Some(value: T)

  /** Appending is associative; stated once so that long sequences are regrouped without unfolding them. */
  lemma AppendAssoc<T>(a: seq<T>, b: seq<T>, c: seq<T>)
    ensures a + (b + c) == (a + b) + c
  {
  }
}

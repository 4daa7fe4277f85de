/** Values shared by every part of the model: optional values, results, and the
    identifiers the document store hands out. */
module Base {

  /** A field that may be absent (JavaScript `undefined`). */
  datatype Option<+T> = None | Some(value: T)

  /** The outcome of a step that can fail with an error of type E. */
  datatype Result<+T, +E> = Ok(value: T) | Err(error: E)

  /** A document identifier (MongoDB's ObjectId). */
  type Id = nat

  /** Concatenation regroups freely. */
  lemma AppendAssoc<X>(a: seq<X>, b: seq<X>, c: seq<X>)
    ensures a + (b + c) == (a + b) + c
  {
  }

  /** A concatenation starts with the head of its non-empty left part. */
  lemma TailAppend<X>(a: seq<X>, b: seq<X>)
    requires a != []
    ensures (a + b)[0] == a[0] && (a + b)[1..] == a[1..] + b
  {
  }
}

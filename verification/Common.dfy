/** Small things that several modules use. */
module Common {

  datatype Option<+A> = None | Some(value: A)

  type byte = x: int | 0 <= x < 256

  /** The greatest value of a C int. */
  const INT_MAX := 0x7fff_ffff

  predicate NoDup<A(==)>(q: seq<A>) { forall i, j :: 0 <= i < j < |q| ==> q[i] != q[j] }
}

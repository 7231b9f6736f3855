/** Values that may be missing, and computations that may fail. */
module Wrappers {

  datatype Option<+T> = None | Some(value: T)

  datatype Result<+T, +E> = Ok(value: T) | Err(error: E)

  /** Two maps with the same entries are the same map. */
  lemma MapsEqual<V>(m: map<int, V>, n: map<int, V>)
    ensures (forall i :: i in m <==> i in n) && (forall i | i in m && i in n :: m[i] == n[i]) ==> m == n
  {
    if (forall i :: i in m <==> i in n) && (forall i | i in m && i in n :: m[i] == n[i]) {
      assert m == n;
    }
  }
}

/** Vocabulary shared by the other modules. */
module Collections {

  /** One more than the largest 32-bit word. */
  const U32_LIMIT: nat := 0x1_0000_0000

  datatype Option<T> = None | Some(value: T)

  ghost predicate Distinct<T>(s: seq<T>) {
    forall i, j :: 0 <= i < j < |s| ==> s[i] != s[j]
  }

  /** The first `n` elements, or all if there are fewer. */
  function Take<T>(s: seq<T>, n: nat): seq<T> { if |s| <= n then s else s[..n] }
}

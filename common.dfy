/** Small shared vocabulary: optional values and duplicate-free sequences. */
module Common {

  datatype Option<T> = None | Some(value: T)

  /** The elements of a sequence, as a set. */
  function Elems<T>(s: seq<T>): (r: set<T>)
  {
    set i | 0 <= i < |s| :: s[i]
  }

  /** No element occurs twice: what a Go slice built by appending distinct map keys satisfies. */
  predicate Distinct<T(==)>(s: seq<T>)
  {
    forall i, j :: 0 <= i < j < |s| ==> s[i] != s[j]
  }

  lemma ElemsAppend<T>(s: seq<T>, x: T)
    ensures Elems(s + [x]) == Elems(s) + {x}
  {
    assert forall i :: 0 <= i < |s| ==> (s + [x])[i] == s[i];
    assert (s + [x])[|s|] == x;
  }
}

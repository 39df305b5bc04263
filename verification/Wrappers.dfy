/** A value that may be missing, a NULL pointer or the result of a failed call;
    and what many modules say of sequences and numbers. */
module Wrappers {
  datatype Option<+T> = None | Some(value: T)

  ghost predicate Distinct<T>(s: seq<T>) {
    forall i, j :: 0 <= i < j < |s| ==> s[i] != s[j]
  }

  function Min(a: nat, b: nat): nat {
    if a < b then a else b
  }
}

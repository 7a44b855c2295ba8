/** Sequences without repetition, and what linking and unlinking one element does to a sequence. */
module Sequences {

  ghost predicate NoRepeats<T>(s: seq<T>) {
    forall i, j :: 0 <= i < j < |s| ==> s[i] != s[j]
  }

  ghost predicate Disjoint<T>(s: seq<T>, r: seq<T>) {
    forall i, j :: 0 <= i < |s| && 0 <= j < |r| ==> s[i] != r[j]
  }

  ghost predicate AllIn<T>(s: seq<T>, r: set<T>) {
    forall i :: 0 <= i < |s| ==> s[i] in r
  }

  ghost function Inserted<T>(s: seq<T>, k: nat, t: T): (r: seq<T>)
    requires k <= |s|
    ensures |r| == |s| + 1
    ensures forall i :: 0 <= i < |r| ==> r[i] == if i < k then s[i] else if i == k then t else s[i - 1]
  {
    s[..k] + [t] + s[k..]
  }

  ghost function Removed<T>(s: seq<T>, k: nat): (r: seq<T>)
    requires k < |s|
    ensures |r| == |s| - 1
    ensures forall i :: 0 <= i < |r| ==> r[i] == s[if i < k then i else i + 1]
  {
    s[..k] + s[k + 1..]
  }
}

/** What several components need: optional values, lists of names, and the first element that reaches a bound. */
module Common {

  datatype Option<+T> = None | Some(value: T)

  ghost predicate NoRepeat<T>(xs: seq<T>) {
    forall i, j :: 0 <= i < j < |xs| ==> xs[i] != xs[j]
  }

  /** No name twice, every key of `m` and no other. */
  ghost predicate Enumerates<V>(names: seq<string>, m: map<string, V>) {
    NoRepeat(names) && forall x :: x in names <==> x in m
  }

  /** What a scan from the start ends at: the first element whose key is not below `bound`. */
  function FirstReaching<T>(xs: seq<T>, key: T -> int, bound: int): (i: nat)
    ensures i <= |xs|
    ensures forall k :: 0 <= k < i ==> key(xs[k]) < bound
    ensures i < |xs| ==> key(xs[i]) >= bound
  {
    if xs == [] || key(xs[0]) >= bound then 0 else 1 + FirstReaching(xs[1..], key, bound)
  }
}

/** The optional value and the larger of two numbers, shared by the models. */
module Wrappers {
  datatype Option<+T> = None | Some(value: T)

  function MaxReal(a: real, b: real): real {
    if a < b then b else a
  }
}

/** First and last positions of an element in a sequence: the shape of the source's linear searches. */
module Search {

  /** The position of the first element that satisfies p, or |s|. */
  function FirstIndex<T>(s: seq<T>, p: T -> bool): (k: nat)
    ensures k <= |s|
    ensures k < |s| ==> p(s[k])
    ensures forall j :: 0 <= j < k ==> !p(s[j])
  {
    if s == [] || p(s[0]) then 0
    else
      var k := FirstIndex(s[1..], p);
      assert forall j :: 1 <= j < k + 1 ==> s[j] == s[1..][j - 1];
      k + 1
  }

  /** The position of the last element that satisfies p, or -1. */
  function LastIndex<T>(s: seq<T>, p: T -> bool): (k: int)
    ensures -1 <= k < |s|
    ensures 0 <= k ==> p(s[k])
    ensures forall j :: k < j < |s| ==> !p(s[j])
  {
    if s == [] then -1
    else if p(s[|s| - 1]) then |s| - 1
    else LastIndex(s[..|s| - 1], p)
  }
}

/** What several modules share. */
module Basics {

  datatype Option<+T> = None | Some(value: T)

  type Byte = b: int | 0 <= b < 256

  /** The first element that satisfies the predicate, or the length of the sequence. */
  function FindFirst<T>(s: seq<T>, pred: T -> bool): (p: nat)
    ensures p <= |s|
    ensures p < |s| ==> pred(s[p])
    ensures forall i :: 0 <= i < p ==> !pred(s[i])
  {
    if s == [] || pred(s[0]) then 0 else FindFirst(s[1..], pred) + 1
  }
}

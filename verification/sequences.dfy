/**
 The two index-based array idioms both editors use: `xs.map((x, i) => i === j ? y : x)`
 and `xs.filter((_, i) => i !== j)`. Each is written the way the source computes it,
 element by element, and its contract states the slice-level meaning.
 */
module Sequences {

  /** `xs.map((x, i) => i === j ? y : x)`: replace the element at index `j`, if there is one. */
  function ReplaceAt<T>(xs: seq<T>, j: int, y: T): (r: seq<T>)
    ensures |r| == |xs|
    ensures 0 <= j < |xs| ==> r[j] == y
    ensures forall k :: 0 <= k < |xs| && k != j ==> r[k] == xs[k]
    ensures !(0 <= j < |xs|) ==> r == xs
    decreases |xs|
  {
    if |xs| == 0 then []
    else [if j == 0 then y else xs[0]] + ReplaceAt(xs[1..], j - 1, y)
  }

  /** `xs.filter((_, i) => i !== j)`: keep every element whose index is not `j`. */
  function RemoveAt<T>(xs: seq<T>, j: int): (r: seq<T>)
    ensures 0 <= j < |xs| ==> r == xs[..j] + xs[j + 1..]
    ensures 0 <= j < |xs| ==> |r| == |xs| - 1
    ensures !(0 <= j < |xs|) ==> r == xs
    decreases |xs|
  {
    if |xs| == 0 then []
    else (if j == 0 then [] else [xs[0]]) + RemoveAt(xs[1..], j - 1)
  }
}

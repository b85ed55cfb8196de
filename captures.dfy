/** Values the regex engine hands to the submatch extractors, and the
    JavaScript array the extractors fill.

    A capture slot of a match array is either a string or `undefined`.
    The extractors test it with JavaScript truthiness, so the empty string
    behaves like `undefined`. The extractors build their result in a JS
    array by assigning at an index; assigning past the end grows the array
    and leaves holes, modelled here as `Unset` slots. */
module Captures {

  /** One entry of a raw match array: the text a group captured, or
      `undefined` when the group did not take part in the match. */
  datatype Capture = Undefined | Str(text: string)

  /** JavaScript truthiness of a capture: only a non-empty string is truthy. */
  predicate Truthy(c: Capture) {
    c.Str? && c.text != ""
  }

  /** A slot of the submatch array: a hole, `None`, or `Some(text)`. */
  datatype Slot = Unset | NoneV | SomeV(text: string)

  /** The submatch an extractor writes for a group once it writes at all. */
  function ToSlot(c: Capture): (s: Slot)
    ensures s != Unset
    ensures s.SomeV? <==> Truthy(c)
    ensures s.SomeV? ==> s.text == c.text && s.text != ""
  {
    if Truthy(c) then SomeV(c.text) else NoneV
  }

  /** `k` holes. */
  function Unsets(k: nat): (r: seq<Slot>)
    ensures |r| == k
    ensures forall j :: 0 <= j < k ==> r[j] == Unset
  {
    seq(k, _ => Unset)
  }

  /** `a[i] = v` on a JavaScript array: an index inside the array is
      overwritten; an index at or past the end grows the array to `i + 1`
      and the indices between the old end and `i` stay holes. */
  function Store(a: seq<Slot>, i: nat, v: Slot): (r: seq<Slot>)
    ensures |r| == if i < |a| then |a| else i + 1
    ensures r[i] == v
    ensures forall j :: 0 <= j < |a| && j != i ==> r[j] == a[j]
    ensures forall j :: |a| <= j < |r| && j != i ==> r[j] == Unset
  {
    if i < |a| then a[i := v] else a + Unsets(i - |a|) + [v]
  }
}

/** `split`: the segments `String.prototype.split` produces are handed on
    with every `undefined` segment replaced by the empty string. A segment
    is `undefined` when the engine splices in a capture group that did not
    take part in a match; splitting itself is the engine's and is not
    modelled. */
module Split {
  import opened Captures

  /** The `.map` over the engine's segments. */
  function NormalizeSegments(segments: seq<Capture>): (r: seq<string>)
    ensures |r| == |segments|
    ensures forall i :: 0 <= i < |r| ==> segments[i] == Undefined ==> r[i] == ""
    ensures forall i :: 0 <= i < |r| ==> segments[i].Str? ==> r[i] == segments[i].text
  {
    seq(|segments|, i requires 0 <= i < |segments| => if segments[i] == Undefined then "" else segments[i].text)
  }

  /** The segments as the engine would give them if none were `undefined`. */
  function Defined(texts: seq<string>): (r: seq<Capture>)
    ensures |r| == |texts|
    ensures forall i :: 0 <= i < |r| ==> r[i] == Str(texts[i])
  {
    seq(|texts|, i requires 0 <= i < |texts| => Str(texts[i]))
  }

  /** Normalisation leaves a list without `undefined` segments as it is,
      empty strings included. */
  lemma NormalizeKeepsDefined(texts: seq<string>)
    ensures NormalizeSegments(Defined(texts)) == texts
  {
  }

  /** An `undefined` segment and an empty segment end up the same; nothing
      else about the list changes. */
  lemma UndefinedBecomesEmpty(segments: seq<Capture>, i: nat)
    requires i < |segments| && segments[i] == Undefined
    ensures NormalizeSegments(segments) == NormalizeSegments(segments[i := Str("")])
  {
  }
}

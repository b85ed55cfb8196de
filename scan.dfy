/** `scan`: every match the engine finds becomes a `Match` whose
    submatches come from the backward extractor. The engine's `matchAll`
    is not modelled; its raw match arrays are the input. */
module Scan {
  import opened Captures
  import opened Submatches

  /** One raw match as `matchAll` yields it: the full matched text and the
      capture of every group, group 1 first. */
  datatype RawMatch = RawMatch(content: string, captures: seq<Capture>)

  /** The JavaScript match array of a raw match: the full text at index 0,
      group `n` at index `n`. */
  function MatchArray(m: RawMatch): (a: seq<Capture>)
    ensures |a| == |m.captures| + 1
    ensures a[0] == Str(m.content)
    ensures Groups(a) == m.captures
  {
    [Str(m.content)] + m.captures
  }

  /** Converts the matches in order; each one's submatches follow the
      trimming rule over its own captures. */
  method Scan(matches: seq<RawMatch>) returns (records: seq<Match>)
    ensures |records| == |matches|
    ensures forall k :: 0 <= k < |records| ==>
      records[k].content == matches[k].content &&
      records[k].submatches == Trimmed(matches[k].captures)
  {
    records := [];
    for k := 0 to |matches|
      invariant |records| == k
      invariant forall j :: 0 <= j < k ==>
        records[j].content == matches[j].content &&
        records[j].submatches == Trimmed(matches[j].captures)
    {
      var raw := MatchArray(matches[k]);
      var content := raw[0].text;
      var submatches := ScanSubmatches(raw);
      records := records + [Match(content, submatches)];
    }
  }
}

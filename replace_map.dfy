/** `replace_map`: the engine calls a replacer callback once per match
    with the full match, the capture of every group, the match offset, the
    subject string and, when the pattern has named groups, an object of
    named groups. The callback cuts the capture groups out of that argument
    list and builds a `Match` with the forward extractor. Calling the
    user's function and splicing its result into the subject belong to the
    engine's `replaceAll` and are not modelled. */
module ReplaceMap {
  import opened Captures
  import opened Submatches

  /** An argument after the full match in the replacer callback's list. */
  datatype Arg = Group(capture: Capture) | Offset(at: int) | Subject(text: string) | NamedGroups

  /** JavaScript's `typeof` of an argument. */
  function TypeOf(a: Arg): string {
    match a
    case Group(Undefined) => "undefined"
    case Group(Str(_)) => "string"
    case Offset(_) => "number"
    case Subject(_) => "string"
    case NamedGroups => "object"
  }

  /** `typeof args.at(-1) === "object"`; on an empty list `at(-1)` is
      `undefined`. */
  predicate HasNamedGroups(args: seq<Arg>) {
    |args| > 0 && TypeOf(args[|args| - 1]) == "object"
  }

  /** `args.slice(0, hasNamedGroups ? -3 : -2)`: drops the last three
      arguments when the last one is an object, the last two otherwise,
      and yields nothing when there are fewer than that. */
  function CallbackGroups(args: seq<Arg>): (groups: seq<Arg>)
    ensures var drop := if HasNamedGroups(args) then 3 else 2;
      |groups| == if |args| >= drop then |args| - drop else 0
    ensures groups == args[..|groups|]
  {
    var drop := if HasNamedGroups(args) then 3 else 2;
    if |args| >= drop then args[..|args| - drop] else []
  }

  /** The captures as callback arguments. */
  function AsArgs(captures: seq<Capture>): (r: seq<Arg>)
    ensures |r| == |captures|
    ensures forall i :: 0 <= i < |r| ==> r[i] == Group(captures[i])
  {
    seq(|captures|, i requires 0 <= i < |captures| => Group(captures[i]))
  }

  /** The arguments after the full match that `replaceAll` passes to the
      callback for one match. */
  function ReplacerArgs(captures: seq<Capture>, offset: int, subject: string, named: bool): seq<Arg> {
    AsArgs(captures) + [Offset(offset), Subject(subject)] + (if named then [NamedGroups] else [])
  }

  /** The slice recovers exactly the captures, whether or not the pattern
      has named groups. */
  lemma CallbackGroupsRecoverCaptures(captures: seq<Capture>, offset: int, subject: string, named: bool)
    ensures CallbackGroups(ReplacerArgs(captures, offset, subject, named)) == AsArgs(captures)
  {
    var args := ReplacerArgs(captures, offset, subject, named);
    assert HasNamedGroups(args) == named;
    assert args[..|captures|] == AsArgs(captures);
  }

  /** The callback's view of one match: the groups are sliced out of the
      argument list and passed through the forward extractor. */
  method CallbackMatch(content: string, captures: seq<Capture>, offset: int, subject: string, named: bool)
    returns (m: Match)
    ensures m.content == content
    ensures m.submatches == Padded(captures)
  {
    var args := ReplacerArgs(captures, offset, subject, named);
    var groups := CallbackGroups(args);
    CallbackGroupsRecoverCaptures(captures, offset, subject, named);
    var submatches := ToSubmatches(seq(|groups|, i requires 0 <= i < |groups| => groups[i].capture));
    assert seq(|groups|, i requires 0 <= i < |groups| => groups[i].capture) == captures;
    m := Match(content, submatches);
  }
}

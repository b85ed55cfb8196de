# Submatch extraction of the Gleam `regexp` JavaScript FFI

This project models the JavaScript side of the Gleam `regexp` library,
`src/gleam_regexp_ffi.mjs`. That file wraps the host's `RegExp`. Its one
piece of real logic turns the engine's raw capture array for a match into
the list of `Some(text)` / `None` submatches that Gleam code sees.

The file does this twice:

- `scan` walks the groups from last to first (`ScanSubmatches`);
- `toSubmatches`, used by `replace_map`, walks them from first to last
  (`ToSubmatches`).

Both loops build a JavaScript array by assigning at an index. Assigning past
the end grows the array and leaves holes. The model keeps such an array as a
sequence of `Slot`s (`Unset | NoneV | SomeV(text)`), and `Captures.Store` is
the index assignment. Both loops test captures with JavaScript truthiness,
so a group that captured `""` counts as a group that did not take part
(`Captures.Truthy`).

Each loop is a method proved against a specification function:

- `Submatches.Trimmed` is the rule `scan`'s backward loop implements. The
  list ends at the last truthy group. Every group below it is `Some` or `None`. Later groups are
  dropped.
- `Submatches.Padded` is what the forward loop really produces. Slots before
  the first truthy group are holes. Every later group is `Some` or `None`,
  up to the last group.

`Submatches.DirectionsAgreeIff` says exactly when the two agree.

Around the extractors, the project also models:

- `compile`: the flag string built by appending to `"gu"`, and the error
  offset `(columnNumber || 0) | 0`. The `RegExp` constructor is a function
  parameter.
- `split`: the map from `undefined` segments to `""`.
- `replace_map`: cutting the capture groups out of the replacer callback's
  argument list.

Two facts about the code shape the model:

- `scan` and `toSubmatches` give different lists for the same captures
  (see Findings). `ReplaceMap.CallbackMatch` models the code as written.
- `String.prototype.split` splices each capture into its result, and a
  group that did not take part becomes `undefined`. The `.map` turns those
  segments into `""`.

## Model

| member | source | states |
|---|---|---|
| `Captures.ToSlot` | src/gleam_regexp_ffi.mjs:37-43 | once a loop writes a group, it writes `Some(text)` exactly when the capture is truthy (`Captures.Truthy`: a non-empty string, the JS `if (match[n])` test), never a hole and never `Some("")` |
| `Captures.Store` | src/gleam_regexp_ffi.mjs:38-42 | `a[i] = v` on a JS array: slot `i` becomes `v`, other old slots keep their value, the length becomes `max(len, i+1)`, and new slots in between are holes |
| `Submatches.HighestTruthy` | src/gleam_regexp_ffi.mjs:36-40 | the 1-based index of the last truthy group (0 if none); that group is truthy and no later one is |
| `Submatches.FirstTruthy` | src/gleam_regexp_ffi.mjs:66-70 | the index of the first truthy group (the group count if none); that group is truthy and no earlier one is |
| `Submatches.Groups` | src/gleam_regexp_ffi.mjs:36 | the groups of a match array are the entries after index 0, so array index `n` is group `n` |
| `Submatches.ScanSubmatches` | src/gleam_regexp_ffi.mjs:36-44 | the backward loop gives the trimming rule: the length is the index of the last truthy group (0 with no groups), there are no holes, and slot `i` is `Some(match[i+1])` if that is truthy and `None` otherwise |
| `Submatches.ToSubmatches` | src/gleam_regexp_ffi.mjs:64-76 | the forward loop gives an empty array when no group is truthy, otherwise one slot per group; a slot is a hole exactly when it comes before the first truthy group; trailing non-truthy groups are written as `None` |
| `Submatches.TrimmedShape` | src/gleam_regexp_ffi.mjs:36-44 | the trimming rule's list is as long as the last truthy group's index, ends with a `Some`, and has no holes |
| `Submatches.HighestTruthySnoc` | src/gleam_regexp_ffi.mjs:36-40 | appending a group makes it the last truthy one exactly when it is truthy |
| `Submatches.TrimmedSnoc` | src/gleam_regexp_ffi.mjs:36-44 | appending a non-truthy group leaves the trimmed list unchanged; appending a truthy one adds `None` for every group skipped since the last truthy one, then `Some` |
| `Submatches.ToSubmatchesIntended` | src/gleam_regexp_ffi.mjs:64-76 | a forward loop that, unlike `toSubmatches`, yields exactly the backward loop's result: no holes, length equal to the last truthy group's index |
| `Submatches.SameSlotsSameSubmatches` | src/gleam_regexp_ffi.mjs:66-74 | both extractors depend only on each group's truthiness and truthy text |
| `Submatches.EmptyCaptureIsAbsent` | src/gleam_regexp_ffi.mjs:36-44 | in both extractors, a group that captured `""` gives the same result as one that did not take part, and `Some("")` never appears |
| `Submatches.DirectionsAgreeIff` | src/gleam_regexp_ffi.mjs:36-76 | the backward and forward extractors agree if and only if no group is truthy, or both the first and the last group are truthy |
| `Submatches.ForwardDiffersFromBackward` | src/gleam_regexp_ffi.mjs:64-76 | `["a", undefined]` gives `[Some a]` backward but `[Some a, None]` forward; `[undefined, "b"]` gives `[None, Some b]` backward but `[hole, Some b]` forward |
| `Scan.MatchArray` | src/gleam_regexp_ffi.mjs:33-34 | a raw match's JS array holds the full text at index 0 and its groups after it |
| `Scan.Scan` | src/gleam_regexp_ffi.mjs:32-48 | one record per engine match, in order; each keeps its full text, and its submatches follow the trimming rule over its own captures |
| `ReplaceMap.CallbackGroups` | src/gleam_regexp_ffi.mjs:56-57 | the groups are a prefix of the callback's extra arguments, 3 shorter when the last argument is an object (`ReplaceMap.HasNamedGroups`, the `typeof args.at(-1) === "object"` test, false on an empty list) and 2 shorter otherwise, and empty when there are too few |
| `ReplaceMap.CallbackGroupsRecoverCaptures` | src/gleam_regexp_ffi.mjs:55-57 | for the argument list `replaceAll` passes (captures, offset, subject, and the named-groups object when there is one), the slice returns exactly the captures |
| `ReplaceMap.CallbackMatch` | src/gleam_regexp_ffi.mjs:55-58 | the match given to the user's function has the full match as content and the forward extractor's result over the captures |
| `Split.NormalizeSegments` | src/gleam_regexp_ffi.mjs:28 | the number of segments is unchanged; each `undefined` segment becomes `""`, and every string segment, including `""`, is kept as it is |
| `Split.NormalizeKeepsDefined` | src/gleam_regexp_ffi.mjs:28 | a segment list without `undefined` is returned unchanged |
| `Split.UndefinedBecomesEmpty` | src/gleam_regexp_ffi.mjs:28 | an `undefined` segment and an empty segment normalise alike |
| `Compile.BuildFlags` | src/gleam_regexp_ffi.mjs:16-18 | the flags are `g` and `u`, then `i` exactly when case-insensitive, then `m` exactly when multi-line, in that order |
| `Compile.FlagsForUnique` | src/gleam_regexp_ffi.mjs:16-18 | only one flag string meets that description for a given set of options |
| `Compile.FlagsForDeterminesOptions` | src/gleam_regexp_ffi.mjs:16-18 | the flag string determines both options |
| `Compile.ToInt32` | src/gleam_regexp_ffi.mjs:21 | JavaScript's bitwise-or with 0, applied to an integer `x`, lies in the signed 32-bit range, is congruent to `x` modulo 2^32, and equals `x` when `x` is already in range |
| `Compile.ErrorOffset` | src/gleam_regexp_ffi.mjs:21 | the offset is 0 when the engine gives no column number or a zero one, and the column number itself when that is in range |
| `Compile.Compile` | src/gleam_regexp_ffi.mjs:14-24 | the engine is called with the pattern and the flags for the options; success returns the compiled pattern with those flags, and a thrown error becomes a compile error with the engine's message and offset |

## Left out

- `check` is not modelled. Its `lastIndex = 0` reset and `RegExp.test` act on the regex object's cursor, which belongs to the engine.
- `Scan.Scan` assumes the engine's matches start at index 0 of the subject. `matchAll` starts at the regex's `lastIndex`, and under the `g` flag a successful `check` leaves `lastIndex` past its match, so `scan` on the same regex after `check` can skip the start of the subject. The model takes the matches as input and does not capture that cursor.
- `replace` is not modelled. It passes its arguments straight to `replaceAll`, and the `$` template rules belong to the engine.
- The regex engine itself is not modelled: pattern syntax, `new RegExp` validation, `matchAll`, `String.prototype.split` and `replaceAll`. Their outputs are inputs here: raw match arrays, callback argument lists, segment lists, and an `engine` function for `RegExp`.
- In `replace_map`, the model stops at building the match for the user's function. Calling that function, substituting its result, and passing its exceptions out of `replaceAll` are host behaviour.
- `List.fromArray` and the Gleam `Some`/`None`/`Ok`/`Error`/`Match`/`CompileError` constructors are defined in files that are not part of this model. Their lists are kept as sequences of `Slot`. A hole stays an explicit `Unset`, because how `List.fromArray` treats a hole is not visible here.
- `Compile.ErrorOffset`: only models `columnNumber` as absent or an integer. The `| 0` coercion of non-integral numbers, `NaN` and non-number values is host number conversion.
- `Compile.Compile`: the engine is a pure function of pattern and flags. A `RegExp` object's mutable `lastIndex` is not part of it.

## Findings

| source | as written | input that shows it | evidently intended | confidence | as-written member | corrected member |
|---|---|---|---|---|---|---|
| src/gleam_regexp_ffi.mjs:64-76 | `toSubmatches` keeps trailing non-participating groups as `None` and leaves leading ones as holes | pattern `(a)(b)?` on `"a"`: the groups are `["a", undefined]`. `replace_map` sees `[Some("a"), None]` but `scan` gives `[Some("a")]` | the same submatch list as `scan`: trailing groups dropped, no holes | medium, not executed | `Submatches.ForwardDiffersFromBackward` | `Submatches.ToSubmatchesIntended` |

`ReplaceMap.CallbackMatch` still uses the as-written `ToSubmatches`, so
that it describes what the library does today. `ToSubmatchesIntended` is
proved equal to the backward extractor (`ensures submatches ==
Trimmed(groups)`).

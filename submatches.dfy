/** The two submatch extractors of the JavaScript FFI and the rules they
    implement.

    `groups` is always the list of capture results of one match, group 1
    first (so `groups[i]` belongs to group `i + 1`).

    - `Trimmed` is the rule the backward loop of `scan` implements: the
      list runs up to the last group whose capture is truthy, every group
      below it appears as `Some` or `None`, and groups after it are
      dropped.
    - `Padded` is what the forward loop of `toSubmatches` produces: holes
      before the first truthy group, then `Some`/`None` for every group up
      to the end, including trailing `None`s. */
module Submatches {
  import opened Captures

  /** What a match is reported as: the full matched text and the list of
      submatches (before the list is turned into a Gleam list). */
  datatype Match = Match(content: string, submatches: seq<Slot>)

  /** The 1-based index of the last group whose capture is truthy; 0 when
      there is none. */
  function HighestTruthy(groups: seq<Capture>): (m: nat)
    ensures m <= |groups|
    ensures m > 0 ==> Truthy(groups[m - 1])
    ensures forall j :: m <= j < |groups| ==> !Truthy(groups[j])
  {
    if groups == [] then 0
    else if Truthy(groups[|groups| - 1]) then |groups|
    else HighestTruthy(groups[..|groups| - 1])
  }

  /** The 0-based index of the first group whose capture is truthy;
      `|groups|` when there is none. */
  function FirstTruthy(groups: seq<Capture>): (f: nat)
    ensures f <= |groups|
    ensures f < |groups| ==> Truthy(groups[f])
    ensures forall j :: 0 <= j < f ==> !Truthy(groups[j])
  {
    if groups == [] then 0
    else if Truthy(groups[0]) then 0
    else 1 + FirstTruthy(groups[1..])
  }

  /** The trimming rule: slot `i` describes group `i + 1`, and the list
      stops at the last truthy group. */
  function Trimmed(groups: seq<Capture>): seq<Slot> {
    var m := HighestTruthy(groups);
    seq(m, i requires 0 <= i < m => ToSlot(groups[i]))
  }

  /** The shape of the trimmed list: it ends at the last truthy group,
      with a `Some` there, and has no holes. */
  lemma TrimmedShape(groups: seq<Capture>)
    ensures |Trimmed(groups)| == HighestTruthy(groups)
    ensures Unset !in Trimmed(groups)
    ensures |Trimmed(groups)| > 0 ==> Trimmed(groups)[|Trimmed(groups)| - 1].SomeV?
  {
    var t := Trimmed(groups);
    assert forall i :: 0 <= i < |t| ==> t[i] == ToSlot(groups[i]);
  }

  /** The result of the forward loop: empty when no group is truthy,
      otherwise one slot per group, holes before the first truthy one. */
  function Padded(groups: seq<Capture>): seq<Slot> {
    var f := FirstTruthy(groups);
    if f == |groups| then []
    else seq(|groups|, i requires 0 <= i < |groups| => if i < f then Unset else ToSlot(groups[i]))
  }

  /** `k` explicit `None`s. */
  function Nones(k: nat): (r: seq<Slot>)
    ensures |r| == k
    ensures forall j :: 0 <= j < k ==> r[j] == NoneV
  {
    seq(k, _ => NoneV)
  }

  /** The capture groups of a JavaScript match array: everything after the
      full match at index 0. */
  function Groups(raw: seq<Capture>): (g: seq<Capture>)
    ensures |g| == if |raw| == 0 then 0 else |raw| - 1
    ensures forall i :: 0 <= i < |g| ==> g[i] == raw[i + 1]
  {
    if |raw| == 0 then [] else raw[1..]
  }

  /** The backward loop of `scan`: walk the groups from last to first;
      write nothing until a truthy capture is seen, then write every lower
      slot. The result has no holes and ends at the last truthy group. */
  method ScanSubmatches(raw: seq<Capture>) returns (submatches: seq<Slot>)
    ensures submatches == Trimmed(Groups(raw))
    ensures |submatches| == HighestTruthy(Groups(raw))
    ensures Unset !in submatches
    ensures forall i :: 0 <= i < |submatches| ==> submatches[i] == ToSlot(raw[i + 1])
  {
    ghost var g := Groups(raw);
    ghost var m := HighestTruthy(g);
    submatches := [];
    var n := |raw| - 1;
    while n > 0
      invariant (|raw| == 0 && n == -1) || 0 <= n < |raw|
      invariant |submatches| == if m > n then m else 0
      invariant forall i :: 0 <= i < |submatches| ==> submatches[i] == if i < n then Unset else ToSlot(g[i])
    {
      if Truthy(raw[n]) {
        submatches := Store(submatches, n - 1, SomeV(raw[n].text));
        n := n - 1;
        continue;
      }
      if |submatches| > 0 {
        submatches := Store(submatches, n - 1, NoneV);
      }
      n := n - 1;
    }
    assert submatches == Trimmed(g);
    TrimmedShape(g);
  }

  /** The forward loop of `toSubmatches`: walk the groups from first to
      last; write nothing until a truthy capture is seen, then write every
      later slot. Leading groups stay holes; trailing ones become `None`. */
  method ToSubmatches(groups: seq<Capture>) returns (submatches: seq<Slot>)
    ensures submatches == Padded(groups)
    ensures |submatches| == if FirstTruthy(groups) == |groups| then 0 else |groups|
    ensures forall i :: 0 <= i < |submatches| ==> (submatches[i] == Unset <==> i < FirstTruthy(groups))
  {
    ghost var f := FirstTruthy(groups);
    submatches := [];
    var n := 0;
    while n < |groups|
      invariant 0 <= n <= |groups|
      invariant |submatches| == if f < n then n else 0
      invariant forall i :: 0 <= i < |submatches| ==> submatches[i] == if i < f then Unset else ToSlot(groups[i])
    {
      if Truthy(groups[n]) {
        submatches := Store(submatches, n, SomeV(groups[n].text));
        n := n + 1;
        continue;
      }
      if |submatches| > 0 {
        submatches := Store(submatches, n, NoneV);
      }
      n := n + 1;
    }
    assert submatches == Padded(groups);
  }

  /** Appending one group moves the last truthy group to the new one
      exactly when the new one is truthy. */
  lemma HighestTruthySnoc(groups: seq<Capture>, c: Capture)
    ensures HighestTruthy(groups + [c]) == if Truthy(c) then |groups| + 1 else HighestTruthy(groups)
  {
    var g' := groups + [c];
    assert g'[|g'| - 1] == c;
    assert g'[..|g'| - 1] == groups;
  }

  /** Appending one group to the list either leaves the trimmed submatches
      alone (the new group is not truthy) or extends them with `None` for
      every skipped group and `Some` for the new one. */
  lemma {:induction false} TrimmedSnoc(groups: seq<Capture>, c: Capture)
    ensures Trimmed(groups + [c]) ==
      if Truthy(c) then Trimmed(groups) + Nones(|groups| - HighestTruthy(groups)) + [ToSlot(c)]
      else Trimmed(groups)
  {
    var g' := groups + [c];
    var m := HighestTruthy(groups);
    HighestTruthySnoc(groups, c);
    var lhs := Trimmed(g');
    if Truthy(c) {
      var rhs := Trimmed(groups) + Nones(|groups| - m) + [ToSlot(c)];
      assert |lhs| == |rhs| == |g'|;
      forall i | 0 <= i < |g'| ensures lhs[i] == rhs[i] {
        if i < m {
          assert rhs[i] == Trimmed(groups)[i];
        } else if i < |groups| {
          assert !Truthy(groups[i]) && rhs[i] == NoneV;
        } else {
          assert rhs[i] == ToSlot(c);
        }
      }
    } else {
      assert |lhs| == m;
      forall i | 0 <= i < m ensures lhs[i] == Trimmed(groups)[i] {
        assert g'[i] == groups[i];
      }
    }
  }

  /** The trimming rule computed by one forward pass, using the length of
      the list built so far as the "last truthy group seen" marker. This is
      the extractor `toSubmatches` evidently intends: it yields exactly what
      the backward loop of `scan` yields. */
  method ToSubmatchesIntended(groups: seq<Capture>) returns (submatches: seq<Slot>)
    ensures submatches == Trimmed(groups)
    ensures |submatches| == HighestTruthy(groups)
    ensures Unset !in submatches
  {
    submatches := [];
    var n := 0;
    while n < |groups|
      invariant 0 <= n <= |groups|
      invariant submatches == Trimmed(groups[..n])
      invariant |submatches| <= n
    {
      ghost var prefix := groups[..n];
      assert groups[..n + 1] == prefix + [groups[n]];
      HighestTruthySnoc(prefix, groups[n]);
      TrimmedSnoc(prefix, groups[n]);
      if Truthy(groups[n]) {
        assert SomeV(groups[n].text) == ToSlot(groups[n]);
        submatches := submatches + Nones(n - |submatches|) + [SomeV(groups[n].text)];
      }
      n := n + 1;
    }
    assert groups[..n] == groups;
    TrimmedShape(groups);
  }

  /** Two capture lists that every extractor sees alike (same length, same
      truthiness and same truthy text at every index) yield the same
      submatches in both directions. */
  lemma SameSlotsSameSubmatches(g: seq<Capture>, h: seq<Capture>)
    requires |g| == |h|
    requires forall j :: 0 <= j < |g| ==> ToSlot(g[j]) == ToSlot(h[j])
    ensures Trimmed(g) == Trimmed(h)
    ensures Padded(g) == Padded(h)
  {
    assert forall j :: 0 <= j < |g| ==> (Truthy(g[j]) <==> Truthy(h[j]));
  }

  /** A group that captured the empty string is handled exactly like a
      group that did not take part, by both extractors; neither ever
      produces `Some("")`. */
  lemma EmptyCaptureIsAbsent(groups: seq<Capture>, i: nat)
    requires i < |groups| && groups[i] == Str("")
    ensures Trimmed(groups[i := Undefined]) == Trimmed(groups)
    ensures Padded(groups[i := Undefined]) == Padded(groups)
    ensures SomeV("") !in Trimmed(groups) && SomeV("") !in Padded(groups)
  {
    SameSlotsSameSubmatches(groups[i := Undefined], groups);
  }

  /** The two extractors agree exactly when no group is truthy, or when the
      first and the last group are both truthy. */
  lemma DirectionsAgreeIff(groups: seq<Capture>)
    ensures Trimmed(groups) == Padded(groups) <==>
      (forall j :: 0 <= j < |groups| ==> !Truthy(groups[j])) ||
      (|groups| > 0 && Truthy(groups[0]) && Truthy(groups[|groups| - 1]))
  {
    var m, f := HighestTruthy(groups), FirstTruthy(groups);
    if forall j :: 0 <= j < |groups| ==> !Truthy(groups[j]) {
      assert m == 0 && f == |groups|;
    } else if |groups| > 0 && Truthy(groups[0]) && Truthy(groups[|groups| - 1]) {
      assert m == |groups| && f == 0;
    } else {
      var j :| 0 <= j < |groups| && Truthy(groups[j]);
      assert f <= j < m;
      if m < |groups| {
        assert |Trimmed(groups)| < |Padded(groups)|;
      } else {
        assert Padded(groups)[0] == Unset;
        assert Trimmed(groups)[0] != Unset;
      }
    }
  }

  /** Concrete disagreements: `(a)(b)?` matching "a" keeps a trailing
      `None` in the forward extractor but not in the backward one, and
      `(a)?(b)` matching "b" leaves a hole in the forward extractor where the
      backward one writes `None`. */
  lemma ForwardDiffersFromBackward()
    ensures Trimmed([Str("a"), Undefined]) == [SomeV("a")]
    ensures Padded([Str("a"), Undefined]) == [SomeV("a"), NoneV]
    ensures Trimmed([Undefined, Str("b")]) == [NoneV, SomeV("b")]
    ensures Padded([Undefined, Str("b")]) == [Unset, SomeV("b")]
  {
    assert HighestTruthy([Str("a"), Undefined]) == 1 by {
      assert [Str("a"), Undefined][..1] == [Str("a")];
    }
    assert FirstTruthy([Undefined, Str("b")]) == 1 by {
      assert [Undefined, Str("b")][1..] == [Str("b")];
    }
  }
}

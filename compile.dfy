/** `compile`: builds the flag string from the options, hands pattern and
    flags to the engine's `RegExp` constructor, and turns a thrown error
    into a compile error whose offset is the error's column number, or 0.
    The constructor is a parameter: a pure function from pattern and flags
    to success or a thrown error. */
module Compile {

  datatype CompileOptions = CompileOptions(caseInsensitive: bool, multiLine: bool)

  /** The `columnNumber` of a thrown error: absent, or an integer. */
  datatype Column = NoColumn | Column(n: int)

  /** What `new RegExp(pattern, flags)` does. */
  datatype EngineOutcome = Compiled | Threw(message: string, column: Column)

  /** A compiled expression: the pattern and the flags it was built with. */
  datatype Regex = Regex(pattern: string, flags: string)

  datatype CompileError = CompileError(message: string, offset: int)

  datatype Result<T, E> = Ok(value: T) | Error(error: E)

  const TwoTo31: int := 0x8000_0000
  const TwoTo32: int := 0x1_0000_0000

  /** The flags for a set of options: global and unicode always, then
      case-insensitive exactly when asked for, then multi-line exactly when
      asked for, in that order. */
  ghost predicate FlagsFor(options: CompileOptions, flags: string) {
    && |flags| == 2 + (if options.caseInsensitive then 1 else 0) + (if options.multiLine then 1 else 0)
    && flags[..2] == "gu"
    && ('i' in flags <==> options.caseInsensitive)
    && ('m' in flags <==> options.multiLine)
    && (forall p, q :: 0 <= p < |flags| && 0 <= q < |flags| && flags[p] == 'i' && flags[q] == 'm' ==> p < q)
  }

  /** At most one flag string fits a set of options. */
  lemma FlagsForUnique(options: CompileOptions, f1: string, f2: string)
    requires FlagsFor(options, f1) && FlagsFor(options, f2)
    ensures f1 == f2
  {
    assert f1[0] == f2[0] && f1[1] == f2[1] by {
      assert f1[..2] == f2[..2];
    }
    if |f1| == 3 {
      assert f1[2] in f1 && f2[2] in f2;
      assert f1[2] != 'g' && f1[2] != 'u';
      assert f1[..2] == "gu";
    }
    if |f1| == 4 {
      assert f1[2] == 'i' && f1[3] == 'm' by {
        assert 'i' in f1 && 'm' in f1;
        assert f1[..2] == "gu";
      }
      assert f2[2] == 'i' && f2[3] == 'm' by {
        assert 'i' in f2 && 'm' in f2;
        assert f2[..2] == "gu";
      }
    }
  }

  /** The flag string determines the options it was built from. */
  lemma FlagsForDeterminesOptions(o1: CompileOptions, o2: CompileOptions, flags: string)
    requires FlagsFor(o1, flags) && FlagsFor(o2, flags)
    ensures o1 == o2
  {
  }

  /** The flag string, built by appending to "gu". */
  method BuildFlags(options: CompileOptions) returns (flags: string)
    ensures FlagsFor(options, flags)
  {
    flags := "gu";
    if options.caseInsensitive {
      flags := flags + "i";
    }
    if options.multiLine {
      flags := flags + "m";
    }
  }

  /** JavaScript's `| 0` on an integer: wraps it into the signed 32-bit
      range. */
  function ToInt32(x: int): (r: int)
    ensures -TwoTo31 <= r < TwoTo31
    ensures (r - x) % TwoTo32 == 0
    ensures -TwoTo31 <= x < TwoTo31 ==> r == x
  {
    (x + TwoTo31) % TwoTo32 - TwoTo31
  }

  /** `(error.columnNumber || 0) | 0`: 0 when there is no column number
      (the `|| 0`; a zero column is already 0), otherwise the column number
      as a 32-bit integer. */
  function ErrorOffset(column: Column): (offset: int)
    ensures column == NoColumn || column == Column(0) ==> offset == 0
    ensures column.Column? && -TwoTo31 <= column.n < TwoTo31 ==> offset == column.n
    ensures -TwoTo31 <= offset < TwoTo31
  {
    match column
    case NoColumn => 0
    case Column(n) => ToInt32(n)
  }

  /** Compiles `pattern` with the flags for `options`; success carries the
      compiled expression, a thrown error becomes a compile error with the
      engine's message and offset. */
  method Compile(pattern: string, options: CompileOptions, engine: (string, string) -> EngineOutcome)
    returns (r: Result<Regex, CompileError>)
    ensures (exists flags :: FlagsFor(options, flags) && (match engine(pattern, flags)
               case Compiled => r == Ok(Regex(pattern, flags))
               case Threw(message, column) => r == Error(CompileError(message, ErrorOffset(column)))))
  {
    var flags := BuildFlags(options);
    match engine(pattern, flags)
    case Compiled =>
      r := Ok(Regex(pattern, flags));
    case Threw(message, column) =>
      r := Error(CompileError(message, ErrorOffset(column)));
  }
}

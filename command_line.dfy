/**
 * The command-line front end `Args::new`: walks the arguments after the
 * program name and fills the input file name, the `-uf` unroll factor (an
 * `i8`) and the `-c` flag, or reports why it cannot.
 */
module CommandLine {
  import opened Wrappers
  import opened Patterns

  datatype Args = Args(input: string, uf: int, lvn: bool)

  /**
   * What `Args::new` ends with: the record, one of its two `Err` messages, the
   * `process::exit(1)` on a `-uf` value that is not an `i8`, or the panic when
   * `-uf` is the last argument and `args[i + 1]` is out of bounds.
   */
  datatype Parsed =
    | Ok(args: Args)
    | Err(msg: string)
    | UfNotInteger(at: nat)
    | IndexOutOfBounds(index: nat)

  const NotEnoughArguments: string := "not enough arguments"
  const NoInputFile: string := "No input file"

  const Defaults: Args := Args("", 1, false)

  // ---------------------------------------------------------------------------
  // `str::contains` and `str::parse::<i8>`

  /** `pat` occurs in `s` starting at position `i`. */
  predicate OccursAt(s: string, pat: string, i: nat) {
    i + |pat| <= |s| && s[i..i + |pat|] == pat
  }

  /** Whether `pat` occurs in `s` as a contiguous substring. */
  function Contains(s: string, pat: string): (r: bool)
    ensures r <==> exists i: nat :: OccursAt(s, pat, i)
    decreases |s|
  {
    if |s| < |pat| then false
    else if s[..|pat|] == pat then (assert OccursAt(s, pat, 0); true)
    else
      var r := Contains(s[1..], pat);
      ShiftOccurrence(s, pat);
      r
  }

  /** Past the first position, the occurrences in `s` are those in `s[1..]`, shifted by one. */
  lemma ShiftOccurrence(s: string, pat: string)
    requires |s| > 0 && !OccursAt(s, pat, 0)
    ensures (exists i: nat :: OccursAt(s, pat, i)) <==> (exists i: nat :: OccursAt(s[1..], pat, i))
  {
    if exists i: nat :: OccursAt(s, pat, i) {
      var i: nat :| OccursAt(s, pat, i);
      SliceOfTail(s, i - 1, |pat|);
      assert OccursAt(s[1..], pat, i - 1);
    }
    if exists i: nat :: OccursAt(s[1..], pat, i) {
      var i: nat :| OccursAt(s[1..], pat, i);
      SliceOfTail(s, i, |pat|);
      assert OccursAt(s, pat, i + 1);
    }
  }

  lemma SliceOfTail(s: string, i: nat, n: nat)
    requires i + 1 + n <= |s|
    ensures s[1..][i..i + n] == s[i + 1..i + 1 + n]
  {
  }

  function DigitValue(c: char): nat
    requires IsDigit(c)
  {
    c as int - '0' as int
  }

  /** The value of a run of decimal digits, most significant first. */
  function Value(s: string): nat
    requires AllDigits(s)
  {
    if s == [] then 0 else 10 * Value(s[..|s| - 1]) + DigitValue(s[|s| - 1])
  }

  /**
   * `parse::<i8>`: an optional '+' or '-', then one or more decimal digits,
   * whose value must lie in the `i8` range. A sign alone is rejected.
   */
  function ParseI8(s: string): (r: Option<int>)
    ensures r.Some? ==> -128 <= r.value <= 127
  {
    var signed := |s| > 0 && (s[0] == '-' || s[0] == '+');
    var body := if signed then s[1..] else s;
    if body == [] || !AllDigits(body) then None
    else
      var n: int := Value(body);
      var v := if signed && s[0] == '-' then -n else n;
      if -128 <= v <= 127 then Some(v) else None
  }

  function DigitChar(d: nat): char
    requires d < 10
  {
    ('0' as int + d) as char
  }

  /** Decimal digits of `n`, without leading zeros. */
  function Digits(n: nat): string
  {
    if n < 10 then [DigitChar(n)] else Digits(n / 10) + [DigitChar(n % 10)]
  }

  /** The decimal text of `n`, with a '-' when it is negative. */
  function ShowInt(n: int): string {
    if n < 0 then "-" + Digits(-n) else Digits(n)
  }

  lemma {:induction false} DigitsValue(n: nat)
    ensures |Digits(n)| > 0 && AllDigits(Digits(n)) && Value(Digits(n)) == n
  {
    if n >= 10 {
      DigitsValue(n / 10);
      var d := Digits(n);
      assert d[..|d| - 1] == Digits(n / 10);
      assert AllDigits(d) by {
        forall i | 0 <= i < |d| ensures IsDigit(d[i]) {
          if i < |d| - 1 { assert d[i] == Digits(n / 10)[i]; }
        }
      }
    }
  }

  /** Every `i8` value is read back from its decimal text. */
  lemma ParseShowRoundTrip(n: int)
    requires -128 <= n <= 127
    ensures ParseI8(ShowInt(n)) == Some(n)
  {
    var s := ShowInt(n);
    if n < 0 {
      DigitsValue(-n);
      assert s[1..] == Digits(-n);
    } else {
      DigitsValue(n);
      assert IsDigit(s[0]);
    }
  }

  /** A sign alone, a value out of range or a stray character is not an `i8`; '+' and leading zeros are accepted. */
  lemma ParseI8Examples()
    ensures ParseI8("-") == None && ParseI8("+") == None && ParseI8("") == None
    ensures ParseI8("128") == None && ParseI8("-129") == None && ParseI8("4x") == None
    ensures ParseI8("-128") == Some(-128) && ParseI8("+007") == Some(7)
  {
    assert "128"[..2] == "12" && "129"[..2] == "12" && "12"[..1] == "1" && "1"[..0] == "";
    assert AllDigits("128") && Value("128") == 128;
    assert AllDigits("129") && Value("129") == 129;
    assert "-129"[1..] == "129";
    assert !AllDigits("4x") by { assert !IsDigit("4x"[1]); }
    assert "-128"[1..] == "128";
    assert "+007"[1..] == "007";
    assert "007"[..2] == "00" && "00"[..1] == "0" && "0"[..0] == "";
    assert AllDigits("007") && Value("007") == 7;
  }

  // ---------------------------------------------------------------------------
  // `Args::new`

  /** How the loop reads an argument: "-uf" is tested first, then "-c". */
  datatype Kind = UnrollFactor | Lvn | Plain

  function KindOf(a: string): Kind {
    if Contains(a, "-uf") then UnrollFactor
    else if Contains(a, "-c") then Lvn
    else Plain
  }

  /** The `for` loop from index `i` on, with the record `acc` built so far, then the final check. */
  function Loop(args: seq<string>, i: nat, acc: Args): Parsed
    requires 1 <= i <= |args|
    decreases |args| - i
  {
    if i == |args| then
      if acc.input == "" then Err(NoInputFile) else Ok(acc)
    else
      match KindOf(args[i])
      case UnrollFactor =>
        if i + 1 == |args| then IndexOutOfBounds(i + 1)
        else (
          match ParseI8(args[i + 1])
          case None => UfNotInteger(i + 1)
          case Some(v) => Loop(args, i + 1, acc.(uf := v)))
      case Lvn => Loop(args, i + 1, acc.(lvn := true))
      case Plain => Loop(args, i + 1, acc.(input := args[i]))
  }

  function ParseArgs(args: seq<string>): Parsed {
    if |args| < 2 then Err(NotEnoughArguments) else Loop(args, 1, Defaults)
  }

  method NewArgs(args: seq<string>) returns (r: Parsed)
    ensures r == ParseArgs(args)
  {
    if |args| < 2 {
      return Err(NotEnoughArguments);
    }
    var newArgs := Defaults;
    for i := 1 to |args|
      invariant Loop(args, i, newArgs) == ParseArgs(args)
    {
      match KindOf(args[i])
      case UnrollFactor =>
        if i + 1 == |args| {
          return IndexOutOfBounds(i + 1);
        }
        match ParseI8(args[i + 1]) {
          case None =>
            return UfNotInteger(i + 1);
          case Some(v) =>
            newArgs := newArgs.(uf := v);
        }
      case Lvn =>
        newArgs := newArgs.(lvn := true);
      case Plain =>
        newArgs := newArgs.(input := args[i]);
    }
    if newArgs.input == "" {
      return Err(NoInputFile);
    }
    return Ok(newArgs);
  }

  // ---------------------------------------------------------------------------
  // A reference reading of `Args::new`, argument by argument

  /** The last index at or after `lo` whose argument is of kind `k`. */
  function LastOfKind(args: seq<string>, lo: nat, k: Kind): (r: Option<nat>)
    ensures r.Some? ==> lo <= r.value < |args| && KindOf(args[r.value]) == k
    ensures r.Some? ==> forall q :: r.value < q < |args| ==> KindOf(args[q]) != k
    ensures r.None? ==> forall q :: lo <= q < |args| ==> KindOf(args[q]) != k
    decreases |args| - lo
  {
    if lo >= |args| then None
    else
      match LastOfKind(args, lo + 1, k)
      case Some(q) => Some(q)
      case None => if KindOf(args[lo]) == k then Some(lo) else None
  }

  /** A `-uf` argument at `q` whose value is missing or not an `i8`. */
  predicate UfFails(args: seq<string>, q: nat)
    requires q < |args|
  {
    KindOf(args[q]) == UnrollFactor && (q + 1 == |args| || ParseI8(args[q + 1]).None?)
  }

  /** The first failing `-uf` argument at or after `lo`. */
  function FirstUfFailure(args: seq<string>, lo: nat): (r: Option<nat>)
    ensures r.Some? ==> lo <= r.value < |args| && UfFails(args, r.value)
    ensures r.Some? ==> forall q :: lo <= q < r.value ==> !UfFails(args, q)
    ensures r.None? ==> forall q :: lo <= q < |args| ==> !UfFails(args, q)
    decreases |args| - lo
  {
    if lo >= |args| then None
    else if UfFails(args, lo) then Some(lo)
    else FirstUfFailure(args, lo + 1)
  }

  /** The value of the `-uf` argument at `q`, or 1 when there is none to read. */
  function UfValue(args: seq<string>, q: nat): int {
    if q + 1 < |args| && ParseI8(args[q + 1]).Some? then ParseI8(args[q + 1]).value else 1
  }

  /**
   * The outcome stated per argument: the first `-uf` with no `i8` after it
   * aborts; otherwise the input is the last plain argument, the unroll factor
   * the value after the last `-uf`, and the flag is set by any `-c`, each
   * starting from `acc` when no such argument is found at or after `lo`.
   */
  function Reference(args: seq<string>, lo: nat, acc: Args): Parsed {
    match FirstUfFailure(args, lo)
    case Some(q) => if q + 1 == |args| then IndexOutOfBounds(q + 1) else UfNotInteger(q + 1)
    case None =>
      var a := Final(args, lo, acc);
      if a.input == "" then Err(NoInputFile) else Ok(a)
  }

  /** The record the arguments at or after `lo` leave, last writer winning. */
  function Final(args: seq<string>, lo: nat, acc: Args): Args {
    var input := match LastOfKind(args, lo, Plain) case None => acc.input case Some(p) => args[p];
    var uf := match LastOfKind(args, lo, UnrollFactor) case None => acc.uf case Some(q) => UfValue(args, q);
    var lvn := acc.lvn || LastOfKind(args, lo, Lvn).Some?;
    Args(input, uf, lvn)
  }

  /** The record after the loop body has read the argument at `i`. */
  function Next(args: seq<string>, i: nat, acc: Args): Args
    requires i < |args|
  {
    match KindOf(args[i])
    case UnrollFactor => acc.(uf := UfValue(args, i))
    case Lvn => acc.(lvn := true)
    case Plain => acc.(input := args[i])
  }

  /** Reading one argument that does not abort moves the reference one position on. */
  lemma ReferenceStep(args: seq<string>, i: nat, acc: Args)
    requires i < |args| && !UfFails(args, i)
    ensures Reference(args, i, acc) == Reference(args, i + 1, Next(args, i, acc))
  {
    assert FirstUfFailure(args, i) == FirstUfFailure(args, i + 1);
    FinalStep(args, i, acc);
  }

  lemma FinalStep(args: seq<string>, i: nat, acc: Args)
    requires i < |args|
    ensures Final(args, i, acc) == Final(args, i + 1, Next(args, i, acc))
  {
    var k := KindOf(args[i]);
    LastOfKindStep(args, i, Plain);
    LastOfKindStep(args, i, UnrollFactor);
    LastOfKindStep(args, i, Lvn);
    if k == UnrollFactor {
      assert Next(args, i, acc) == acc.(uf := UfValue(args, i));
    } else if k == Lvn {
      assert Next(args, i, acc) == acc.(lvn := true);
    } else {
      assert Next(args, i, acc) == acc.(input := args[i]);
    }
  }

  lemma LastOfKindStep(args: seq<string>, i: nat, k: Kind)
    requires i < |args|
    ensures LastOfKind(args, i, k) ==
      if LastOfKind(args, i + 1, k).Some? then LastOfKind(args, i + 1, k)
      else if KindOf(args[i]) == k then Some(i) else None
  {
  }

  lemma {:induction false} LoopIsReference(args: seq<string>, i: nat, acc: Args)
    requires 1 <= i <= |args|
    ensures Loop(args, i, acc) == Reference(args, i, acc)
    decreases |args| - i
  {
    if i < |args| && !UfFails(args, i) {
      ReferenceStep(args, i, acc);
      LoopIsReference(args, i + 1, Next(args, i, acc));
    }
  }

  /**
   * `Args::new` agrees with the reference reading: fewer than two arguments
   * is an error; otherwise every argument after the program name is read by
   * kind, last writer winning, and the first `-uf` without an `i8` after it
   * aborts.
   */
  lemma ParseArgsIsReference(args: seq<string>)
    ensures ParseArgs(args) == if |args| < 2 then Err(NotEnoughArguments) else Reference(args, 1, Defaults)
  {
    if |args| >= 2 {
      LoopIsReference(args, 1, Defaults);
    }
  }

  /** Only a short argument list gives "not enough arguments". */
  lemma NotEnoughArgumentsExactly(args: seq<string>)
    ensures ParseArgs(args) == Err(NotEnoughArguments) <==> |args| < 2
  {
    if |args| >= 2 {
      LoopIsReference(args, 1, Defaults);
    }
  }

  /** The program name `args[0]` is never inspected. */
  lemma ProgramNameIgnored(args: seq<string>, name: string)
    requires |args| > 0
    ensures ParseArgs(args[0 := name]) == ParseArgs(args)
  {
    var other := args[0 := name];
    if |args| >= 2 {
      LoopIsReference(args, 1, Defaults);
      LoopIsReference(other, 1, Defaults);
      SameTail(args, other, 1);
    }
  }

  /** The reference reads nothing below `lo`. */
  lemma {:induction false} SameTail(a: seq<string>, b: seq<string>, lo: nat)
    requires |a| == |b| && 1 <= lo <= |a|
    requires forall q :: lo <= q < |a| ==> a[q] == b[q]
    ensures FirstUfFailure(a, lo) == FirstUfFailure(b, lo)
    ensures forall k :: LastOfKind(a, lo, k) == LastOfKind(b, lo, k)
    ensures forall q :: lo <= q < |a| ==> UfValue(a, q) == UfValue(b, q)
    decreases |a| - lo
  {
    if lo < |a| {
      SameTail(a, b, lo + 1);
    }
  }

  /**
   * A successful parse names a non-empty input file: the last argument after
   * the program name that is neither a `-uf` nor a `-c` argument.
   */
  lemma OkInputIsLastPlain(args: seq<string>) returns (p: nat)
    requires ParseArgs(args).Ok?
    ensures 1 <= p < |args| && KindOf(args[p]) == Plain
    ensures ParseArgs(args).args.input == args[p] != ""
    ensures forall q :: p < q < |args| ==> KindOf(args[q]) != Plain
  {
    ParseArgsIsReference(args);
    p := LastOfKind(args, 1, Plain).value;
  }

  /** The `-c` flag is set exactly when some argument is read as `-c`. */
  lemma LvnIffFlag(args: seq<string>)
    requires ParseArgs(args).Ok?
    ensures ParseArgs(args).args.lvn <==> exists q :: 1 <= q < |args| && KindOf(args[q]) == Lvn
  {
    ParseArgsIsReference(args);
  }

  /** The argument at `q`, past the program name, is the last one of kind `k`. */
  predicate IsLastOfKind(args: seq<string>, q: nat, k: Kind) {
    1 <= q < |args| && KindOf(args[q]) == k && forall q' :: q < q' < |args| ==> KindOf(args[q']) != k
  }

  /** The unroll factor is 1 unless some `-uf` is given; then it is the `i8` after the last one. */
  lemma UfIsLastValue(args: seq<string>)
    requires ParseArgs(args).Ok?
    ensures (forall q :: 1 <= q < |args| ==> KindOf(args[q]) != UnrollFactor) ==> ParseArgs(args).args.uf == 1
    ensures forall q: nat :: IsLastOfKind(args, q, UnrollFactor) ==>
                          q + 1 < |args| && ParseI8(args[q + 1]) == Some(ParseArgs(args).args.uf)
  {
    ParseArgsIsReference(args);
    var last := LastOfKind(args, 1, UnrollFactor);
    forall q: nat | IsLastOfKind(args, q, UnrollFactor)
      ensures q + 1 < |args| && ParseI8(args[q + 1]) == Some(ParseArgs(args).args.uf)
    {
      assert last.Some? && last.value == q;
      assert !UfFails(args, q);
    }
  }

  /**
   * The two aborts: the first `-uf` whose value is not an `i8` exits, and a
   * `-uf` in last position reads past the end. The parse finishes with a
   * record or an `Err` exactly when no `-uf` argument fails.
   */
  lemma UfFailureAborts(args: seq<string>)
    requires |args| >= 2
    ensures var r := ParseArgs(args);
      r.UfNotInteger? ==> 2 <= r.at < |args| && KindOf(args[r.at - 1]) == UnrollFactor && ParseI8(args[r.at]).None?
    ensures var r := ParseArgs(args);
      r.IndexOutOfBounds? ==> r.index == |args| && KindOf(args[|args| - 1]) == UnrollFactor
    ensures var r := ParseArgs(args);
      (r.Ok? || r.Err?) <==> forall q :: 1 <= q < |args| ==> !UfFails(args, q)
  {
    ParseArgsIsReference(args);
  }

  /**
   * The value after a `-uf` argument is not skipped: it is read as an argument
   * in its own right, and here it becomes the input file.
   */
  lemma UfValueIsReadAgain()
    ensures ParseArgs(["cmini", "prog.c", "-uf", "4"]) == Ok(Args("4", 4, false))
    ensures ParseArgs(["cmini", "-uf", "4"]) == Ok(Args("4", 4, false))
    ensures ParseArgs(["cmini", "prog.c", "-uf"]) == IndexOutOfBounds(3)
  {
    assert KindOf("prog.c") == Plain by {
      assert !Contains("prog.c", "-uf") by { NoDash("prog.c", "-uf"); }
      assert !Contains("prog.c", "-c") by { NoDash("prog.c", "-c"); }
    }
    assert KindOf("-uf") == UnrollFactor by { assert "-uf"[0..3] == "-uf"; }
    assert KindOf("4") == Plain;
    assert ParseI8("4") == Some(4) by { assert AllDigits("4") && Value("4") == 4; }
  }

  /** A text without '-' contains no pattern that starts with '-'. */
  lemma NoDash(s: string, pat: string)
    requires |pat| > 0 && pat[0] == '-'
    requires forall i :: 0 <= i < |s| ==> s[i] != '-'
    ensures !Contains(s, pat)
  {
    forall i: nat | i + |pat| <= |s|
      ensures !OccursAt(s, pat, i)
    {
      assert s[i..i + |pat|][0] != pat[0];
    }
  }
}

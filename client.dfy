/** The command-line validator of the user-space client: it reads a command
    letter and an optional integer, stores the integer in the global
    `g_quantum`, and either returns a command code or prints the usage text
    and exits. `atoi` is taken as already applied to the third argument. */
module Client {
  import opened Machine

  datatype ExitStatus = ExitSuccess | ExitFailure

  /** How the validator ends: it returns a command code, or prints the usage
      text and ends the process with an exit status. */
  datatype Outcome = Returned(cmd: int) | Exited(status: ExitStatus)

  /** The outcome together with `g_quantum` afterwards. */
  datatype Parsed = Parsed(outcome: Outcome, quantum: int32)

  /** `argv[1][0]`: the first character, or the terminating NUL of an empty
      argument. */
  function FirstChar(arg: string): char
  {
    if |arg| == 0 then '\0' else arg[0]
  }

  /** The letters whose argument is a quantum or a count between 1 and 10. */
  predicate TakesCount(c: char)
  {
    c == 'S' || c == 'T' || c == 'H' || c == 'p' || c == 't'
  }

  predicate InRange(v: int)
  {
    1 <= v <= 10
  }

  /** The command codes the client's operation switch handles. */
  predicate Operation(cmd: int)
  {
    cmd == 'S' as int || cmd == 'T' as int || cmd == 'H' as int || cmd == 'p' as int
    || cmd == 't' as int || cmd == 'X' as int || cmd == 'R' as int || cmd == 'G' as int
    || cmd == 'Q' as int
  }

  /** The validator's decision, case by case, as the code makes it. What it
      returns is -1 or a code of the operation switch; it exits with success
      only for 'h'; it changes `g_quantum` only to store the argument of a
      letter that takes one. */
  function Parse(argc: int, argv1: string, value: int32, quantum: int32): (p: Parsed)
    ensures p.outcome.Returned? ==> p.outcome.cmd == -1 || Operation(p.outcome.cmd)
    ensures p.outcome == Exited(ExitSuccess) ==> argc >= 2 && FirstChar(argv1) == 'h'
    ensures p.quantum != quantum ==>
      argc >= 3 && (TakesCount(FirstChar(argv1)) || FirstChar(argv1) == 'X') && p.quantum == value
  {
    if argc < 2 then Parsed(Exited(ExitFailure), quantum)
    else
      var c := FirstChar(argv1);
      if TakesCount(c) then
        if argc < 3 then Parsed(Exited(ExitFailure), quantum)
        else if !InRange(value) then Parsed(Returned(-1), value)
        else Parsed(Returned(c as int), value)
      else if c == 'X' then
        if argc < 3 then Parsed(Exited(ExitFailure), quantum)
        else Parsed(Returned(c as int), value)
      else if c == 'R' || c == 'G' || c == 'Q' then Parsed(Returned(c as int), quantum)
      else if c == 'h' then Parsed(Exited(ExitSuccess), quantum)
      else Parsed(Exited(ExitFailure), quantum)
  }

  /** The validator as its usage text and its callers expect it: a count
      out of range prints the usage text and exits with failure, like a
      missing one. */
  function ParseIntended(argc: int, argv1: string, value: int32, quantum: int32): (p: Parsed)
    ensures p.outcome.Returned? ==> Operation(p.outcome.cmd)
  {
    var p := Parse(argc, argv1, value, quantum);
    if p.outcome == Returned(-1) then p.(outcome := Exited(ExitFailure)) else p
  }

  /** The client process; `quantum` is the global `g_quantum`. */
  class Program {
    var quantum: int32

    constructor()
      ensures quantum == 0
    {
      quantum := 0;
    }

    /** `parse_arguments`: `cmd` is set by the switch, and every path that
        leaves it negative (or equal to 'h') reaches the usage text and
        `exit`, except the two early returns for a count out of range. */
    method ParseArguments(argc: int, argv1: string, value: int32) returns (o: Outcome)
      modifies this
      ensures Parsed(o, quantum) == Parse(argc, argv1, value, old(quantum))
    {
      var cmd: int;
      if argc < 2 {
        cmd := -1;
      } else {
        var c := FirstChar(argv1);
        cmd := c as int;
        if c == 'S' || c == 'T' || c == 'H' || c == 'p' || c == 't' {
          if argc < 3 {
            cmd := -1;
          } else {
            quantum := value;
            if quantum > 10 || quantum < 1 {
              return Returned(-1);
            }
          }
        } else if c == 'X' {
          if argc < 3 {
            cmd := -1;
          } else {
            quantum := value;
          }
        } else if c == 'R' || c == 'G' || c == 'Q' || c == 'h' {
        } else {
          cmd := -1;
        }
      }
      if cmd < 0 || cmd == 'h' as int {
        return Exited(if cmd == 'h' as int then ExitSuccess else ExitFailure);
      }
      return Returned(cmd);
    }
  }

  // ---------------------------------------------------------------------
  // Properties of the validator

  /** Fewer than two arguments: usage and failure, `g_quantum` untouched. */
  lemma TooFewArguments(argc: int, argv1: string, value: int32, quantum: int32)
    requires argc < 2
    ensures Parse(argc, argv1, value, quantum) == Parsed(Exited(ExitFailure), quantum)
  {
  }

  /** Only the first character of the command argument matters. */
  lemma OnlyFirstCharacter(argc: int, a: string, b: string, value: int32, quantum: int32)
    requires FirstChar(a) == FirstChar(b)
    ensures Parse(argc, a, value, quantum) == Parse(argc, b, value, quantum)
  {
  }

  /** A letter that needs an argument but has none: usage and failure. */
  lemma MissingArgument(argv1: string, value: int32, quantum: int32)
    requires TakesCount(FirstChar(argv1)) || FirstChar(argv1) == 'X'
    ensures Parse(2, argv1, value, quantum) == Parsed(Exited(ExitFailure), quantum)
  {
  }

  /** For a counting letter the value is stored in `g_quantum` in every case,
      and the result is -1, returned without usage or exit, exactly when the
      value is outside 1..10; otherwise the letter itself. */
  lemma CountOutOfRangeReturns(argc: int, argv1: string, value: int32, quantum: int32)
    requires argc >= 3 && TakesCount(FirstChar(argv1))
    ensures Parse(argc, argv1, value, quantum).quantum == value
    ensures Parse(argc, argv1, value, quantum).outcome == Returned(-1) <==> !InRange(value)
    ensures InRange(value) ==> Parse(argc, argv1, value, quantum).outcome == Returned(FirstChar(argv1) as int)
  {
  }

  /** 'X' accepts any integer and stores it. */
  lemma ExchangeAcceptsAny(argc: int, argv1: string, value: int32, quantum: int32)
    requires argc >= 3 && FirstChar(argv1) == 'X'
    ensures Parse(argc, argv1, value, quantum) == Parsed(Returned('X' as int), value)
  {
  }

  /** 'R', 'G' and 'Q' need no argument and come back as the command code. */
  lemma PlainCommands(argc: int, argv1: string, value: int32, quantum: int32)
    requires argc >= 2
    requires FirstChar(argv1) == 'R' || FirstChar(argv1) == 'G' || FirstChar(argv1) == 'Q'
    ensures Parse(argc, argv1, value, quantum) == Parsed(Returned(FirstChar(argv1) as int), quantum)
  {
  }

  /** 'h' prints the usage text and exits with success. */
  lemma HelpExitsSuccess(argc: int, argv1: string, value: int32, quantum: int32)
    requires argc >= 2 && FirstChar(argv1) == 'h'
    ensures Parse(argc, argv1, value, quantum) == Parsed(Exited(ExitSuccess), quantum)
  {
  }

  /** Any other first character, 'K' included, is refused with usage and
      failure. */
  lemma OtherLettersRefused(argc: int, argv1: string, value: int32, quantum: int32)
    requires argc >= 2
    requires !TakesCount(FirstChar(argv1)) && !Operation(FirstChar(argv1) as int) && FirstChar(argv1) != 'h'
    ensures Parse(argc, argv1, value, quantum) == Parsed(Exited(ExitFailure), quantum)
  {
  }

  /** "S 11": the validator returns -1 to its caller instead of printing
      usage and exiting; -1 is no code the operation switch handles. */
  lemma OutOfRangeEscapes(quantum: int32)
    ensures Parse(3, "S", 11, quantum) == Parsed(Returned(-1), 11)
    ensures !Operation(-1)
    ensures ParseIntended(3, "S", 11, quantum).outcome == Exited(ExitFailure)
  {
  }

  /** The intended validator differs from the code only on the out-of-range
      path, and there it exits with failure. */
  lemma IntendedAgreesElsewhere(argc: int, argv1: string, value: int32, quantum: int32)
    ensures var p, q := Parse(argc, argv1, value, quantum), ParseIntended(argc, argv1, value, quantum);
      q.quantum == p.quantum
      && (p.outcome != Returned(-1) ==> q == p)
      && (p.outcome == Returned(-1) <==> (argc >= 3 && TakesCount(FirstChar(argv1)) && !InRange(value)))
      && (p.outcome == Returned(-1) ==> q.outcome == Exited(ExitFailure))
  {
  }
}

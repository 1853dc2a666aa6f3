// Command-line validation of philo/validate_args.c. `av` is the argument
// vector; only its entries 1 .. ac-1 are ever read, and only when the count
// is 5 or 6.
module ValidateArgs {
  import opened Utils

  /** What validate_args reads must be there: the entries 1 .. ac-1 as C strings. */
  predicate Readable(ac: int, av: seq<seq<char>>) {
    5 <= ac <= 6 ==> ac <= |av| && forall i :: 1 <= i < ac ==> Terminated(av[i])
  }

  /**
   * The arguments validate_args accepts: four or five of them, the first
   * parsing to at least 1 and not empty, every one made of digits only.
   */
  predicate ArgsValid(ac: int, av: seq<seq<char>>)
    requires Readable(ac, av)
  {
    && 5 <= ac <= 6
    && AtoiValue(av[1]) >= 1
    && av[1][0] != '\0'
    && forall i :: 1 <= i < ac ==> AllDigits(CString(av[i]))
  }

  /** validate_args: the count check, the parse of av[1], then every character. */
  method Validate(ac: int, av: seq<seq<char>>) returns (ok: bool)
    requires Readable(ac, av)
    ensures ok == ArgsValid(ac, av)
  {
    if ac < 5 || ac > 6 {
      return false;
    }
    var first := Atoi(av[1]);
    if first < 1 || av[1][0] == '\0' {
      return false;
    }
    var i := 1;
    while i < ac
      invariant 1 <= i <= ac
      invariant forall k :: 1 <= k < i ==> AllDigits(CString(av[k]))
    {
      var j := 0;
      while av[i][j] != '\0'
        invariant j <= CLen(av[i])
        invariant forall m :: 0 <= m < j ==> IsDigit(av[i][m])
        decreases CLen(av[i]) - j
      {
        if !IsDigit(av[i][j]) {
          assert CString(av[i])[j] == av[i][j];
          return false;
        }
        j := j + 1;
      }
      assert CString(av[i]) == av[i][..j];
      i := i + 1;
    }
    return true;
  }

  /**
   * Accepted arguments are plain decimal numbers: each parses to its digit
   * value, so none is negative, and the philosopher count is at least 1.
   */
  lemma ValidArgsAreNumbers(ac: int, av: seq<seq<char>>)
    requires Readable(ac, av) && ArgsValid(ac, av)
    ensures forall i :: 1 <= i < ac ==> AtoiValue(av[i]) == DecimalValue(CString(av[i])) >= 0
    ensures AtoiValue(av[1]) >= 1
  {
    forall i | 1 <= i < ac ensures AtoiValue(av[i]) == DecimalValue(CString(av[i])) {
      AtoiOfDigits(av[i]);
    }
  }

  /** A sign or a space anywhere makes an argument invalid. */
  lemma {:induction false} NonDigitRejected(ac: int, av: seq<seq<char>>, i: int, j: int)
    requires Readable(ac, av) && 5 <= ac <= 6 && 1 <= i < ac
    requires 0 <= j < CLen(av[i]) && !IsDigit(av[i][j])
    ensures !ArgsValid(ac, av)
  {
    assert CString(av[i])[j] == av[i][j];
  }

  /** The verdict depends only on the count and the entries 1 .. ac-1. */
  lemma {:induction false} OnlyArgumentsRead(ac: int, av: seq<seq<char>>, av': seq<seq<char>>)
    requires Readable(ac, av) && 5 <= ac <= 6 && ac <= |av'|
    requires forall i :: 1 <= i < ac ==> av'[i] == av[i]
    ensures Readable(ac, av') && ArgsValid(ac, av') == ArgsValid(ac, av)
  {
    assert av'[1] == av[1];
  }

  /** "0" as the philosopher count parses to 0 and is rejected. */
  lemma ZeroCountRejected(ac: int, av: seq<seq<char>>)
    requires Readable(ac, av) && 5 <= ac <= 6 && av[1] == "0\0"
    ensures AtoiValue(av[1]) == 0
    ensures !ArgsValid(ac, av)
  {
    var zero := av[1];
    PrefixCString(zero, 1);
    assert SkipSpaces(zero, 0) == 0 && SignEnd(zero, 0) == 0 && DigitsEnd(zero, 0) == 1;
    assert zero[0..1] == "0";
    assert DecimalValue("0") == 0 by { assert "0"[..0] == []; }
  }

  /**
   * An empty argument after the first is accepted: its digit loop never
   * runs, so emptying any later argument of an accepted vector keeps it
   * accepted.
   */
  lemma EmptyLaterArgAccepted(ac: int, av: seq<seq<char>>, i: int)
    requires Readable(ac, av) && ArgsValid(ac, av) && 2 <= i < ac
    ensures Readable(ac, av[i := "\0"]) && ArgsValid(ac, av[i := "\0"])
  {
    var av' := av[i := "\0"];
    PrefixCString("\0", 0);
    forall k | 1 <= k < ac
      ensures Terminated(av'[k]) && AllDigits(CString(av'[k]))
    {
      if k != i {
        assert av'[k] == av[k];
      }
    }
    assert av'[1] == av[1];
  }

  /** A leading '+' that ft_atoi reads as 4 is still rejected by the digit check. */
  lemma SignedCountRejected(ac: int, av: seq<seq<char>>)
    requires Readable(ac, av) && 5 <= ac <= 6 && av[1] == "+4\0"
    ensures AtoiValue(av[1]) == 4
    ensures !ArgsValid(ac, av)
  {
    var plus := av[1];
    PrefixCString(plus, 2);
    assert SkipSpaces(plus, 0) == 0 && SignEnd(plus, 0) == 1 && DigitsEnd(plus, 1) == 2;
    assert plus[1..2] == "4";
    assert DecimalValue("4") == 4 by { assert "4"[..0] == []; }
    NonDigitRejected(ac, av, 1, 0);
  }
}

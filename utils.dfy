// String and number helpers of philo/utils.c. A C string is modelled as a
// character buffer that holds a NUL somewhere; its value is the prefix before
// the first NUL.
module Utils {
  import opened PhiloConsts

  /** The buffer holds a terminating NUL, so it can be read as a C string. */
  predicate Terminated(s: seq<char>) {
    '\0' in s
  }

  /** The index of the first NUL: the length of the C string held in `s`. */
  function CLen(s: seq<char>): (n: nat)
    requires Terminated(s)
    ensures n < |s| && s[n] == '\0'
    ensures forall k :: 0 <= k < n ==> s[k] != '\0'
  {
    if s[0] == '\0' then 0 else 1 + CLen(s[1..])
  }

  /** The characters of the C string held in `s`, terminator excluded. */
  function CString(s: seq<char>): (r: seq<char>)
    requires Terminated(s)
  {
    s[..CLen(s)]
  }

  /** ft_strlen: walks the buffer up to the first NUL. */
  method StrLen(s: seq<char>) returns (len: nat)
    requires Terminated(s)
    ensures len < |s| && s[len] == '\0'
    ensures forall k :: 0 <= k < len ==> s[k] != '\0'
  {
    len := 0;
    while s[len] != '\0'
      invariant len <= CLen(s)
      invariant forall k :: 0 <= k < len ==> s[k] != '\0'
      decreases CLen(s) - len
    {
      len := len + 1;
    }
  }

  /** ft_isspace: space, newline, form feed, carriage return, tab, vertical tab. */
  predicate IsSpace(c: char) {
    c == ' ' || c == '\n' || c == '\U{000C}' || c == '\r' || c == '\t' || c == '\U{000B}'
  }

  /** ft_isdigit: '0' to '9'. */
  predicate IsDigit(c: char) {
    '0' <= c <= '9'
  }

  /** The character classes ft_atoi relies on do not overlap. */
  lemma CharClasses(c: char)
    ensures IsSpace(c) ==> !IsDigit(c) && c != '-' && c != '+' && c != '\0'
    ensures IsDigit(c) ==> c != '-' && c != '+' && c != '\0'
  {
  }

  predicate AllDigits(d: seq<char>) {
    forall k :: 0 <= k < |d| ==> IsDigit(d[k])
  }

  function DigitValue(c: char): (v: int)
    requires IsDigit(c)
  {
    c as int - '0' as int
  }

  /** The value of a run of decimal digits, most significant first. */
  function DecimalValue(d: seq<char>): (v: nat)
    requires AllDigits(d)
  {
    if d == [] then 0 else DecimalValue(d[..|d| - 1]) * 10 + DigitValue(d[|d| - 1])
  }

  /** The decimal rendering of a natural number, without leading zeros. */
  function Decimal(n: nat): (d: seq<char>)
    ensures AllDigits(d) && d != []
  {
    var last := ['0' + (n % 10) as char];
    if n < 10 then last else Decimal(n / 10) + last
  }

  lemma {:induction false} DecimalValueOfDecimal(n: nat)
    ensures DecimalValue(Decimal(n)) == n
  {
    var d := Decimal(n);
    if n >= 10 {
      DecimalValueOfDecimal(n / 10);
      assert d[..|d| - 1] == Decimal(n / 10);
    }
  }

  /** First index from `i` on that is not whitespace. */
  function SkipSpaces(s: seq<char>, i: nat): (j: nat)
    requires Terminated(s) && i <= CLen(s)
    ensures i <= j <= CLen(s) && !IsSpace(s[j])
    ensures forall k :: i <= k < j ==> IsSpace(s[k])
    decreases CLen(s) - i
  {
    if IsSpace(s[i]) then SkipSpaces(s, i + 1) else i
  }

  /** First index from `i` on that is not a digit. */
  function DigitsEnd(s: seq<char>, i: nat): (j: nat)
    requires Terminated(s) && i <= CLen(s)
    ensures i <= j <= CLen(s) && !IsDigit(s[j])
    ensures forall k :: i <= k < j ==> IsDigit(s[k])
    decreases CLen(s) - i
  {
    if IsDigit(s[i]) then DigitsEnd(s, i + 1) else i
  }

  /** Where the digits start: one past a single optional sign at `i`. */
  function SignEnd(s: seq<char>, i: nat): (j: nat)
    requires Terminated(s) && i <= CLen(s)
    ensures j == i || j == i + 1
    ensures j == i + 1 <==> (s[i] == '-' || s[i] == '+')
    ensures j <= CLen(s)
  {
    if s[i] == '-' || s[i] == '+' then i + 1 else i
  }

  /**
   * The value ft_atoi computes: skip whitespace, take at most one sign, then
   * the maximal run of digits, as an unbounded integer.
   */
  function AtoiValue(s: seq<char>): int
    requires Terminated(s)
  {
    var i := SkipSpaces(s, 0);
    var d := SignEnd(s, i);
    (if s[i] == '-' then -1 else 1) * DecimalValue(s[d..DigitsEnd(s, d)])
  }

  /** ft_atoi, as the pointer walk of philo/utils.c. */
  method Atoi(str: seq<char>) returns (r: int)
    requires Terminated(str)
    ensures r == AtoiValue(str)
  {
    var sign: int := 1;
    var p := SkipSpacesLoop(str);
    if str[p] == '-' {
      sign := -1;
      p := p + 1;
    } else if str[p] == '+' {
      p := p + 1;
    }
    var num := DigitsLoop(str, p);
    r := num * sign;
  }

  /** ft_atoi's first loop: step over whitespace. */
  method SkipSpacesLoop(str: seq<char>) returns (p: nat)
    requires Terminated(str)
    ensures p == SkipSpaces(str, 0)
  {
    p := 0;
    ghost var start := SkipSpaces(str, 0);
    while IsSpace(str[p])
      invariant p <= start
      invariant forall k :: 0 <= k < p ==> IsSpace(str[k])
      decreases start - p
    {
      p := p + 1;
    }
  }

  /** ft_atoi's digit loop from index `d`: the value of the maximal run of digits. */
  method DigitsLoop(str: seq<char>, d: nat) returns (num: nat)
    requires Terminated(str) && d <= CLen(str)
    ensures num == DecimalValue(str[d..DigitsEnd(str, d)])
  {
    num := 0;
    var p := d;
    ghost var end := DigitsEnd(str, d);
    while IsDigit(str[p])
      invariant d <= p <= end
      invariant num == DecimalValue(str[d..p])
      decreases end - p
    {
      DecimalValueStep(str, d, p);
      num := num * 10 + (str[p] as int - '0' as int);
      p := p + 1;
    }
  }

  /** Reading one more digit multiplies the value so far by ten and adds the digit. */
  lemma DecimalValueStep(s: seq<char>, d: nat, p: nat)
    requires d <= p < |s| && AllDigits(s[d..p]) && IsDigit(s[p])
    ensures AllDigits(s[d..p + 1])
    ensures DecimalValue(s[d..p + 1]) == DecimalValue(s[d..p]) * 10 + DigitValue(s[p])
  {
    assert s[d..p + 1][..p - d] == s[d..p];
  }

  /** ft_atoi gives 0 when no digit follows the optional sign. */
  lemma AtoiWithoutDigits(s: seq<char>)
    requires Terminated(s)
    requires !IsDigit(s[SignEnd(s, SkipSpaces(s, 0))])
    ensures AtoiValue(s) == 0
  {
  }

  /** On a string of digits alone, ft_atoi is its decimal value. */
  lemma {:induction false} AtoiOfDigits(s: seq<char>)
    requires Terminated(s) && AllDigits(CString(s))
    ensures AtoiValue(s) == DecimalValue(CString(s))
  {
    var n := CLen(s);
    assert n > 0 ==> IsDigit(s[0]);
    CharClasses(s[0]);
    assert SkipSpaces(s, 0) == 0;
    assert SignEnd(s, 0) == 0;
    forall k | 0 <= k < n ensures IsDigit(s[k]) {
      assert CString(s)[k] == s[k];
    }
    assert DigitsEnd(s, 0) == n;
  }

  /**
   * Parsing a rendered number: leading whitespace, an optional sign, the
   * decimal digits of `n` and any tail that does not start with a digit.
   */
  lemma {:induction false} AtoiOfRendered(ws: seq<char>, sign: seq<char>, n: nat, tail: seq<char>)
    requires forall k :: 0 <= k < |ws| ==> IsSpace(ws[k])
    requires sign == [] || sign == ['-'] || sign == ['+']
    requires Terminated(tail) && !IsDigit(tail[0])
    ensures Terminated(ws + sign + Decimal(n) + tail)
    ensures AtoiValue(ws + sign + Decimal(n) + tail) == if sign == ['-'] then -(n as int) else n as int
  {
    var d := Decimal(n);
    var s := ws + sign + d + tail;
    var b := |ws| + |sign|;
    var e := b + |d|;
    RenderedLayout(ws, sign, d, tail);
    AtoiValueAt(s, |ws|, b, e);
    DecimalValueOfDecimal(n);
  }

  /** ft_atoi from where its three scans stop: the sign at `a`, the digits from `b` to `e`. */
  lemma AtoiValueAt(s: seq<char>, a: nat, b: nat, e: nat)
    requires Terminated(s) && a <= CLen(s) && SkipSpaces(s, 0) == a && SignEnd(s, a) == b
    requires b <= CLen(s) && DigitsEnd(s, b) == e
    ensures AtoiValue(s) == if s[a] == '-' then -(DecimalValue(s[b..e]) as int) else DecimalValue(s[b..e])
  {
  }

  /** Where ft_atoi's scan stops on a rendered number: after the blanks, after the sign, after the digits. */
  lemma {:induction false} RenderedLayout(ws: seq<char>, sign: seq<char>, d: seq<char>, tail: seq<char>)
    requires forall k :: 0 <= k < |ws| ==> IsSpace(ws[k])
    requires sign == [] || sign == ['-'] || sign == ['+']
    requires AllDigits(d) && d != []
    requires Terminated(tail) && !IsDigit(tail[0])
    ensures var s := ws + sign + d + tail;
      && Terminated(s)
      && |ws| + |sign| + |d| <= CLen(s)
      && SkipSpaces(s, 0) == |ws|
      && (s[|ws|] == '-' <==> sign == ['-'])
      && SignEnd(s, |ws|) == |ws| + |sign|
      && DigitsEnd(s, |ws| + |sign|) == |ws| + |sign| + |d|
      && s[|ws| + |sign|..|ws| + |sign| + |d|] == d
  {
    var s := ws + sign + d + tail;
    var a := |ws|;
    var b := a + |sign|;
    var e := b + |d|;
    RenderedChars(ws, sign, d, tail);
    assert s[e..] == tail;
    assert '\0' in s by { assert s[e + CLen(tail)] == '\0'; }
    assert e <= CLen(s);
    SkipSpacesAt(s, a);
    assert SignEnd(s, a) == b by {
      if sign == [] { CharClasses(s[a]); }
    }
    assert s[e] == tail[0];
    DigitsEndAt(s, b, e);
  }

  /** The characters of a rendered number, one region at a time. */
  lemma RenderedChars(ws: seq<char>, sign: seq<char>, d: seq<char>, tail: seq<char>)
    requires forall k :: 0 <= k < |ws| ==> IsSpace(ws[k])
    requires sign == [] || sign == ['-'] || sign == ['+']
    requires AllDigits(d) && d != []
    ensures var s := ws + sign + d + tail; var a := |ws|; var b := a + |sign|;
      && (forall k :: 0 <= k < a ==> IsSpace(s[k]) && s[k] != '\0')
      && (forall k :: a <= k < b ==> s[k] == sign[k - a])
      && (forall k :: b <= k < b + |d| ==> IsDigit(s[k]) && s[k] != '\0' && !IsSpace(s[k]))
      && s[b] == d[0]
  {
    var s := ws + sign + d + tail;
    var a := |ws|;
    var b := a + |sign|;
    forall k | 0 <= k < a ensures IsSpace(s[k]) && s[k] != '\0' {
      assert s[k] == ws[k];
      CharClasses(ws[k]);
    }
    forall k | b <= k < b + |d| ensures IsDigit(s[k]) && s[k] != '\0' && !IsSpace(s[k]) {
      assert s[k] == d[k - b];
      CharClasses(d[k - b]);
    }
  }

  /** SkipSpaces stops at the first non-blank. */
  lemma SkipSpacesAt(s: seq<char>, a: nat)
    requires Terminated(s) && a <= CLen(s) && !IsSpace(s[a])
    requires forall k :: 0 <= k < a ==> IsSpace(s[k])
    ensures SkipSpaces(s, 0) == a
  {
  }

  /** DigitsEnd stops at the first non-digit. */
  lemma DigitsEndAt(s: seq<char>, b: nat, e: nat)
    requires Terminated(s) && b <= e <= CLen(s) && !IsDigit(s[e])
    requires forall k :: b <= k < e ==> IsDigit(s[k])
    ensures DigitsEnd(s, b) == e
  {
  }

  /** The number of characters ft_strncpy copies from `src` with bound `n`. */
  function CopyLength(src: Option<seq<char>>, n: nat): (k: nat)
    requires src.Some? ==> Terminated(src.value)
  {
    match src
    case None => 0
    case Some(s) => if CLen(s) < n then CLen(s) else n
  }

  /** The C string ft_strncpy leaves in `dest`: `src` cut to at most `n` characters. */
  function CopyOf(src: Option<seq<char>>, n: nat): (r: seq<char>)
    requires src.Some? ==> Terminated(src.value)
    ensures |r| <= n
    ensures src.None? ==> r == []
    ensures src.Some? ==>
      && |r| == (if CLen(src.value) < n then CLen(src.value) else n)
      && r == CString(src.value)[..|r|]
  {
    match src
    case None => []
    case Some(s) => s[..CopyLength(src, n)]
  }

  /**
   * ft_strncpy: copies at most `n` characters of `src` (nothing when `src` is
   * null) and always writes a terminator right after them.
   */
  method StrNCopy(dest: array<char>, src: Option<seq<char>>, n: nat)
    requires src.Some? ==> Terminated(src.value)
    requires CopyLength(src, n) < dest.Length
    modifies dest
    ensures var k := CopyLength(src, n);
      && (forall j :: 0 <= j < k ==> dest[j] == src.value[j])
      && dest[k] == '\0'
      && (forall j :: k < j < dest.Length ==> dest[j] == old(dest[j]))
    ensures Terminated(dest[..]) && CString(dest[..]) == CopyOf(src, n)
  {
    var i := 0;
    while src.Some? && src.value[i] != '\0' && i < n
      invariant i <= CopyLength(src, n)
      invariant forall j :: 0 <= j < i ==> dest[j] == src.value[j]
      invariant forall j :: i <= j < dest.Length ==> dest[j] == old(dest[j])
      decreases CopyLength(src, n) - i
    {
      dest[i] := src.value[i];
      i := i + 1;
    }
    dest[i] := '\0';
    assert dest[..][i] == '\0';
    PrefixCString(dest[..], i);
    if src.Some? {
      assert dest[..][..i] == src.value[..i];
    }
  }

  /** A buffer whose first NUL is at `k` holds the C string of its first `k` characters. */
  lemma PrefixCString(s: seq<char>, k: nat)
    requires k < |s| && s[k] == '\0'
    requires forall j :: 0 <= j < k ==> s[j] != '\0'
    ensures Terminated(s) && CLen(s) == k && CString(s) == s[..k]
  {
    assert s[k] in s;
  }
}

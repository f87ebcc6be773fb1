/** Small shared vocabulary: an Option type, the text operations the platform
    applies to what the operator types (ASCII lower-casing, joining lines with
    a newline) and the decimal parsing behind Python's `int()`, `str.isdigit()`
    and `str()` on natural numbers. */
module Base {

  datatype Option<T> = None | Some(value: T) {
    function GetOr(default: T): T {
      match this
      case Some(v) => v
      case None => default
    }
  }

  /** The outcome of an operation the platform may refuse: the refusal names
      the message the operator is shown. */
  datatype Result<T, E> = Ok(value: T) | Err(error: E)

  /** Number of occurrences of `x` in `s`. */
  function Occurrences<T(==)>(s: seq<T>, x: T): nat {
    multiset(s)[x]
  }

  lemma OccurrencesSnoc<T>(s: seq<T>, x: T, y: T)
    ensures Occurrences(s + [y], x) == Occurrences(s, x) + (if x == y then 1 else 0)
  {
    assert multiset(s + [y]) == multiset(s) + multiset{y};
  }

  // ---------------------------------------------------------------------
  // Lower-casing (ASCII letters only)

  function LowerChar(c: char): char {
    if 'A' <= c <= 'Z' then (c as int + 32) as char else c
  }

  /** `str.lower()` restricted to ASCII letters. */
  function Lower(s: string): (r: string)
    ensures |r| == |s|
    ensures forall i :: 0 <= i < |s| ==> r[i] == LowerChar(s[i])
  {
    if |s| == 0 then [] else [LowerChar(s[0])] + Lower(s[1..])
  }

  // ---------------------------------------------------------------------
  // Joining lines with "\n"

  /** `"\n".join(lines)` */
  function Join(lines: seq<string>): string {
    if |lines| == 0 then ""
    else if |lines| == 1 then lines[0]
    else lines[0] + "\n" + Join(lines[1..])
  }

  /** Summed length of the lines. */
  function TotalLength(lines: seq<string>): nat {
    if |lines| == 0 then 0 else TotalLength(lines[..|lines| - 1]) + |lines[|lines| - 1]|
  }

  function CountNonNewline(s: string): nat {
    if |s| == 0 then 0 else CountNonNewline(s[1..]) + (if s[0] == '\n' then 0 else 1)
  }

  predicate NoNewline(line: string) {
    forall i :: 0 <= i < |line| ==> line[i] != '\n'
  }

  lemma {:induction false} CountNonNewlineAppend(a: string, b: string)
    ensures CountNonNewline(a + b) == CountNonNewline(a) + CountNonNewline(b)
  {
    if |a| > 0 {
      assert (a + b)[1..] == a[1..] + b;
      CountNonNewlineAppend(a[1..], b);
    } else {
      assert a + b == b;
    }
  }

  lemma {:induction false} CountNonNewlineOfLine(line: string)
    requires NoNewline(line)
    ensures CountNonNewline(line) == |line|
  {
    if |line| > 0 {
      CountNonNewlineOfLine(line[1..]);
    }
  }

  lemma {:induction false} TotalLengthCons(line: string, rest: seq<string>)
    ensures TotalLength([line] + rest) == |line| + TotalLength(rest)
    decreases |rest|
  {
    if |rest| > 0 {
      var n := |rest|;
      assert ([line] + rest)[..n] == [line] + rest[..n - 1];
      TotalLengthCons(line, rest[..n - 1]);
    }
  }

  /** The joined text holds exactly the lines' characters besides the
      separators: its non-newline characters number the summed line lengths. */
  lemma {:induction false} JoinCharacters(lines: seq<string>)
    requires forall i :: 0 <= i < |lines| ==> NoNewline(lines[i])
    ensures CountNonNewline(Join(lines)) == TotalLength(lines)
  {
    if |lines| == 1 {
      CountNonNewlineOfLine(lines[0]);
      assert lines == [lines[0]] + [];
      TotalLengthCons(lines[0], []);
    } else if |lines| > 1 {
      JoinCharacters(lines[1..]);
      CountNonNewlineAppend(lines[0] + "\n", Join(lines[1..]));
      CountNonNewlineAppend(lines[0], "\n");
      CountNonNewlineOfLine(lines[0]);
      assert lines == [lines[0]] + lines[1..];
      TotalLengthCons(lines[0], lines[1..]);
    }
  }

  // ---------------------------------------------------------------------
  // Decimal digits

  predicate IsDigit(c: char) {
    '0' <= c <= '9'
  }

  /** `str.isdigit()` on ASCII text: non-empty and digits only. */
  predicate AllDigits(s: string) {
    |s| > 0 && forall i :: 0 <= i < |s| ==> IsDigit(s[i])
  }

  function DigitValue(c: char): nat
    requires IsDigit(c)
  {
    c as int - '0' as int
  }

  function DigitChar(d: nat): (c: char)
    requires d < 10
    ensures IsDigit(c) && DigitValue(c) == d
  {
    ('0' as int + d) as char
  }

  function DigitsValue(s: string): nat
    requires forall i :: 0 <= i < |s| ==> IsDigit(s[i])
  {
    if |s| == 0 then 0 else DigitsValue(s[..|s| - 1]) * 10 + DigitValue(s[|s| - 1])
  }

  /** `int(s)` for a text that `str.isdigit()` accepts; None otherwise. */
  function ParseNat(s: string): (r: Option<nat>)
    ensures r.Some? <==> AllDigits(s)
  {
    if AllDigits(s) then Some(DigitsValue(s)) else None
  }

  /** `int(s)` on a text without surrounding blanks: an optional sign followed
      by decimal digits; None where Python raises ValueError. */
  function ParseInt(s: string): (r: Option<int>)
    ensures r.Some? <==> (AllDigits(s) || (|s| > 1 && (s[0] == '-' || s[0] == '+') && AllDigits(s[1..])))
    ensures AllDigits(s) ==> r == Some(DigitsValue(s) as int)
    ensures |s| > 0 && s[0] == '-' && r.Some? ==> r.value <= 0
  {
    if AllDigits(s) then Some(DigitsValue(s) as int)
    else if |s| > 1 && s[0] == '-' && AllDigits(s[1..]) then Some(-(DigitsValue(s[1..]) as int))
    else if |s| > 1 && s[0] == '+' && AllDigits(s[1..]) then Some(DigitsValue(s[1..]) as int)
    else None
  }

  /** `str(n)` */
  function NatToString(n: nat): (s: string)
    ensures AllDigits(s)
  {
    if n < 10 then [DigitChar(n)] else NatToString(n / 10) + [DigitChar(n % 10)]
  }

  /** `int(str(n)) == n`: the decimal rendering and the parser agree. */
  lemma {:induction false} ParseNatToString(n: nat)
    ensures ParseNat(NatToString(n)) == Some(n)
  {
    var s := NatToString(n);
    if n >= 10 {
      ParseNatToString(n / 10);
      assert s[..|s| - 1] == NatToString(n / 10);
      assert DigitsValue(s) == DigitsValue(NatToString(n / 10)) * 10 + n % 10;
    } else {
      assert s[..0] == [];
      assert DigitsValue(s) == n;
    }
  }
}

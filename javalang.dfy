/** The few pieces of the Java library that the simulator's parser relies on:
    `ArrayList.indexOf`, `String.indexOf`, `startsWith`/`endsWith`, `String.split`
    with the repeat-bracket pattern `[\[\]:]+`, `Integer.parseInt` and
    `Integer.toString`.  A Java `null` result is `None`. */
module JavaLang {

  datatype Option<T> = None | Some(value: T)

  const MinInt: int := -0x8000_0000
  const MaxInt: int := 0x7FFF_FFFF

  /** `ArrayList.indexOf` / `String.indexOf`: the first position of x, or -1. */
  function IndexOf<T(==)>(xs: seq<T>, x: T): (r: int)
    ensures r == -1 <==> x !in xs
    ensures r != -1 ==> 0 <= r < |xs| && xs[r] == x && x !in xs[..r]
  {
    if xs == [] then -1
    else if xs[0] == x then 0
    else
      var r := IndexOf(xs[1..], x);
      assert xs[1..][..if r < 0 then 0 else r] == xs[1..1 + (if r < 0 then 0 else r)];
      if r == -1 then -1 else r + 1
  }

  predicate StartsWith(s: string, prefix: string) {
    |prefix| <= |s| && s[..|prefix|] == prefix
  }

  predicate EndsWith(s: string, suffix: string) {
    |suffix| <= |s| && s[|s| - |suffix|..] == suffix
  }

  predicate IsDigit(c: char) {
    '0' <= c <= '9'
  }

  predicate AllDigits(s: string) {
    s == [] || (AllDigits(s[..|s| - 1]) && IsDigit(s[|s| - 1]))
  }

  lemma {:induction false} AllDigitsAt(s: string, i: int)
    requires AllDigits(s) && 0 <= i < |s|
    ensures IsDigit(s[i])
  {
    if i < |s| - 1 {
      AllDigitsAt(s[..|s| - 1], i);
    }
  }

  function DigitValue(c: char): nat
    requires IsDigit(c)
  {
    (c as int) - ('0' as int)
  }

  function DigitChar(d: nat): (c: char)
    requires d < 10
    ensures IsDigit(c) && DigitValue(c) == d
  {
    (('0' as int) + d) as char
  }

  /** The value of a run of decimal digits, most significant first. */
  function DigitsValue(s: string): nat
    requires AllDigits(s)
  {
    if s == [] then 0 else 10 * DigitsValue(s[..|s| - 1]) + DigitValue(s[|s| - 1])
  }

  /** `Integer.parseInt`: an optional sign, at least one decimal digit, and a value
      that fits in an `int`; anything else is a NumberFormatException (`None`). */
  function ParseInt(s: string): Option<int>
  {
    var neg := |s| > 0 && s[0] == '-';
    var digits := if |s| > 0 && (s[0] == '-' || s[0] == '+') then s[1..] else s;
    if digits == [] || !AllDigits(digits) then None
    else
      var v: int := if neg then 0 - DigitsValue(digits) as int else DigitsValue(digits);
      if MinInt <= v <= MaxInt then Some(v) else None
  }

  function NatToString(n: nat): (s: string)
    ensures |s| >= 1 && AllDigits(s)
    ensures DigitsValue(s) == n
  {
    if n < 10 then [DigitChar(n)]
    else
      var s := NatToString(n / 10) + [DigitChar(n % 10)];
      assert s[..|s| - 1] == NatToString(n / 10);
      s
  }

  /** `Integer.toString` (string concatenation of an `int`). */
  function IntToString(v: int): string
  {
    if v < 0 then "-" + NatToString(-v) else NatToString(v)
  }

  /** Reading back a printed `int` gives the same `int`. */
  lemma ParseIntToString(v: int)
    requires MinInt <= v <= MaxInt
    ensures ParseInt(IntToString(v)) == Some(v)
  {
    if v < 0 {
      assert IntToString(v)[1..] == NatToString(-v);
    } else {
      AllDigitsAt(NatToString(v), 0);
    }
  }

  /** A printed `int` holds at least one decimal digit. */
  lemma IntToStringHasDigit(v: int)
    ensures exists i :: 0 <= i < |IntToString(v)| && IsDigit(IntToString(v)[i])
  {
    var s := IntToString(v);
    assert IsDigit(s[|s| - 1]);
  }

  /** The characters of the pattern `[\[\]:]+`. */
  predicate IsRepeatDelimiter(c: char) {
    c == '[' || c == ']' || c == ':'
  }

  /** The pieces of s around each maximal run of delimiters, before Java drops the
      trailing empty pieces; cur is the piece being read and inRun says whether
      the previous character was a delimiter. */
  function Pieces(s: string, cur: string, inRun: bool): (r: seq<string>)
    ensures |r| >= 1
  {
    if s == [] then [cur]
    else if IsRepeatDelimiter(s[0]) then
      if inRun then Pieces(s[1..], cur, true) else [cur] + Pieces(s[1..], "", true)
    else Pieces(s[1..], cur + [s[0]], false)
  }

  function DropTrailingEmpty(ps: seq<string>): (r: seq<string>)
    ensures |r| <= |ps| && r == ps[..|r|]
    ensures r == [] || r[|r| - 1] != ""
    ensures forall i :: |r| <= i < |ps| ==> ps[i] == ""
  {
    if ps == [] then []
    else if ps[|ps| - 1] == "" then DropTrailingEmpty(ps[..|ps| - 1])
    else ps
  }

  /** `s.split("[\\[\\]:]+")`: a leading empty piece is kept and trailing empty
      pieces are dropped, except that a string without any delimiter comes back
      whole; the only such string whose pieces would all be dropped is "". */
  function SplitRepeat(s: string): seq<string>
  {
    if s == [] then [s]
    else DropTrailingEmpty(Pieces(s, "", false))
  }
}

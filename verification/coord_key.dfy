/**
 The cell key of the Lights Out board: every rendered cell is named by the
 string `rnum + "-" + cnum`, and a click hands that string back to the move,
 which reads it with `coord.split("-").map(Number)`.

 Only the part of JavaScript's `Number` that such keys exercise is modelled:
 a field of decimal digits reads as its value, the empty field reads as 0,
 and every other field reads as NaN, written `None` here.
 */
module CoordKey {

  datatype Option<+T> = None | Some(value: T)

  /** The character that separates the row from the column in a key. */
  const Separator: char := '-'

  predicate IsDigit(ch: char) {
    '0' <= ch <= '9'
  }

  predicate AllDigits(s: string) {
    forall i :: 0 <= i < |s| ==> IsDigit(s[i])
  }

  function DigitValue(ch: char): (d: nat)
    requires IsDigit(ch)
    ensures d < 10
  {
    (ch as int - '0' as int) as nat
  }

  function DigitChar(d: nat): (ch: char)
    requires d < 10
    ensures IsDigit(ch) && DigitValue(ch) == d
  {
    ('0' as int + d) as char
  }

  /** The decimal text JavaScript writes for a cell index: digits only, and
      no leading zero unless the index is 0 itself. (Array indices stay far
      below 10^21, where JavaScript would switch to exponent form.) */
  function Decimal(n: nat): (s: string)
    ensures |s| >= 1 && AllDigits(s)
    ensures |s| > 1 ==> s[0] != '0'
    ensures Separator !in s
    decreases n
  {
    if n < 10 then [DigitChar(n)] else Decimal(n / 10) + [DigitChar(n % 10)]
  }

  /** The value of a string of decimal digits; the empty string is 0, as `Number("")` is. */
  function DecimalValue(s: string): nat
    requires AllDigits(s)
    decreases |s|
  {
    if s == [] then 0 else DecimalValue(s[..|s| - 1]) * 10 + DigitValue(s[|s| - 1])
  }

  /** `Number(field)` on one field of a key. */
  function NumberOf(field: string): (v: Option<nat>)
    ensures v.Some? <==> AllDigits(field)
    ensures field == [] ==> v == Some(0)
  {
    if AllDigits(field) then Some(DecimalValue(field)) else None
  }

  /** `parts[0] + sep + parts[1] + sep + ...`: the inverse of `Split`. */
  function Join(parts: seq<string>, sep: char): string
    requires |parts| >= 1
    decreases |parts|
  {
    if |parts| == 1 then parts[0] else parts[0] + [sep] + Join(parts[1..], sep)
  }

  /** `s.split(sep)` for a one-character separator: the pieces between
      separators, including empty ones, so that there is always at least one. */
  function Split(s: string, sep: char): (parts: seq<string>)
    ensures |parts| >= 1
    ensures forall i :: 0 <= i < |parts| ==> sep !in parts[i]
    ensures Join(parts, sep) == s
    ensures |parts| == 1 <==> sep !in s
    decreases |s|
  {
    if |s| == 0 then
      [""]
    else
      var rest := Split(s[1..], sep);
      if s[0] == sep then
        [""] + rest
      else
        var parts := [[s[0]] + rest[0]] + rest[1..];
        assert parts[1..] == rest[1..];
        assert Join(parts, sep) == [s[0]] + Join(rest, sep);
        assert s == [s[0]] + s[1..];
        parts
  }

  /** The key under which the board renders cell (rnum, cnum). */
  function FormatKey(rnum: nat, cnum: nat): (key: string)
    ensures Split(key, Separator) == [Decimal(rnum), Decimal(cnum)]
  {
    SplitAroundOne(Decimal(rnum), Decimal(cnum), Separator);
    Decimal(rnum) + [Separator] + Decimal(cnum)
  }

  /** `const [row, col] = coord.split("-").map(Number)`: `None` when a field
      is missing (undefined) or is not a number (NaN). Fields after the
      second are ignored by the destructuring. */
  function ParseKey(coord: string): (rc: Option<(nat, nat)>)
    ensures Separator !in coord ==> rc == None
  {
    var parts := Split(coord, Separator);
    if |parts| < 2 then None
    else
      match (NumberOf(parts[0]), NumberOf(parts[1]))
      case (Some(row), Some(col)) => Some((row, col))
      case _ => None
  }

  /** Splitting a string that holds no separator gives the string itself. */
  lemma SplitWithoutSeparator(s: string, sep: char)
    requires sep !in s
    ensures Split(s, sep) == [s]
  {
  }

  /** Two separator-free pieces joined by one separator split back into the two pieces. */
  lemma {:induction false} SplitAroundOne(a: string, b: string, sep: char)
    requires sep !in a && sep !in b
    ensures Split(a + [sep] + b, sep) == [a, b]
    decreases |a|
  {
    var s := a + [sep] + b;
    if a == [] {
      assert s[1..] == b;
      SplitWithoutSeparator(b, sep);
    } else {
      assert s[1..] == a[1..] + [sep] + b;
      SplitAroundOne(a[1..], b, sep);
      assert [a[0]] + a[1..] == a;
    }
  }

  /** Reading back the decimal text of a number gives the number. */
  lemma {:induction false} DecimalRoundTrip(n: nat)
    ensures DecimalValue(Decimal(n)) == n
    decreases n
  {
    if n >= 10 {
      var s := Decimal(n);
      assert s[..|s| - 1] == Decimal(n / 10);
      DecimalRoundTrip(n / 10);
    }
  }

  /** A key written for cell (rnum, cnum) reads back as (rnum, cnum). */
  lemma KeyRoundTrip(rnum: nat, cnum: nat)
    ensures ParseKey(FormatKey(rnum, cnum)) == Some((rnum, cnum))
  {
    DecimalRoundTrip(rnum);
    DecimalRoundTrip(cnum);
  }

  /** Distinct cells get distinct keys, so a key names one cell. */
  lemma KeyInjective(r1: nat, c1: nat, r2: nat, c2: nat)
    requires FormatKey(r1, c1) == FormatKey(r2, c2)
    ensures r1 == r2 && c1 == c2
  {
    KeyRoundTrip(r1, c1);
    KeyRoundTrip(r2, c2);
  }
}

/** The cell key of the Lights Out board: the text `y-x` that the board renders as
    each cell's key and hands back to flipCellsAround, which splits it on '-' and
    converts both parts to numbers. Only keys whose parts are non-negative decimal
    integers are modelled. */
module Coord {

  datatype Option<T> = None | Some(value: T)

  predicate IsDigit(c: char) {
    '0' <= c <= '9'
  }

  predicate AllDigits(s: string) {
    forall i :: 0 <= i < |s| ==> IsDigit(s[i])
  }

  function DigitChar(d: nat): (c: char)
    requires d < 10
    ensures IsDigit(c) && c as int - '0' as int == d
  {
    ('0' as int + d) as char
  }

  /** The decimal text of n, as a template literal writes a non-negative integer:
      digits only, and a leading '0' only for n == 0 itself. */
  function DecimalString(n: nat): (s: string)
    ensures |s| >= 1 && AllDigits(s)
    ensures s[0] == '0' <==> n == 0
    decreases n
  {
    if n < 10 then [DigitChar(n)] else DecimalString(n / 10) + [DigitChar(n % 10)]
  }

  /** The value of a string of decimal digits, most significant digit first. */
  function DigitsValue(s: string): nat
    requires AllDigits(s)
    decreases |s|
  {
    if |s| == 0 then 0
    else DigitsValue(s[..|s| - 1]) * 10 + (s[|s| - 1] as int - '0' as int)
  }

  /** A part as `${n}` writes it: decimal digits, with no leading zero unless the part
      is "0" itself. */
  predicate Canonical(part: string) {
    |part| > 0 && AllDigits(part) && (part[0] != '0' || |part| == 1)
  }

  /** `Number(part)` on a non-empty string of decimal digits; any other part is
      outside the modelled key format. A canonical part is read back as the number
      whose text it is. */
  function NumberOf(part: string): (r: Option<nat>)
    ensures r.Some? <==> |part| > 0 && AllDigits(part)
    ensures r.Some? && Canonical(part) ==> DecimalString(r.value) == part
  {
    if |part| > 0 && AllDigits(part) then
      if Canonical(part) then DecimalOfDigits(part); Some(DigitsValue(part))
      else Some(DigitsValue(part))
    else None
  }

  /** `s.split(sep)`: the maximal pieces of s between occurrences of sep. */
  function Split(s: string, sep: char): (parts: seq<string>)
    ensures |parts| >= 1
    ensures forall k :: 0 <= k < |parts| ==> sep !in parts[k]
    decreases |s|
  {
    if |s| == 0 then [""]
    else if s[0] == sep then [""] + Split(s[1..], sep)
    else
      var rest := Split(s[1..], sep);
      [[s[0]] + rest[0]] + rest[1..]
  }

  /** The inverse of Split: the parts joined with sep between neighbours. */
  function Join(parts: seq<string>, sep: char): string
    requires |parts| >= 1
    decreases |parts|
  {
    if |parts| == 1 then parts[0] else parts[0] + [sep] + Join(parts[1..], sep)
  }

  /** The key under which the board renders cell (y, x): split on '-', it has exactly
      two parts, the canonical decimal texts of y and of x. */
  function Format(y: nat, x: nat): (key: string)
    ensures Split(key, '-') == [DecimalString(y), DecimalString(x)]
    ensures Canonical(DecimalString(y)) && Canonical(DecimalString(x))
  {
    var a, b := DecimalString(y), DecimalString(x);
    assert '-' !in a && '-' !in b;
    SplitAtSep(a, b, '-');
    assert a + "-" + b == a + ['-'] + b;
    a + "-" + b
  }

  /** `let [y, x] = key.split("-").map(Number)`: the first two parts are the row and
      the column, each read by NumberOf, and further parts are ignored. The key is
      accepted exactly when it has at least two parts and both are numbers. */
  function Parse(key: string): (r: Option<(nat, nat)>)
    ensures r.Some? <==> |Split(key, '-')| >= 2 && NumberOf(Split(key, '-')[0]).Some?
                         && NumberOf(Split(key, '-')[1]).Some?
    ensures r.Some? ==> NumberOf(Split(key, '-')[0]) == Some(r.value.0)
                        && NumberOf(Split(key, '-')[1]) == Some(r.value.1)
  {
    var parts := Split(key, '-');
    if |parts| < 2 then None
    else
      match (NumberOf(parts[0]), NumberOf(parts[1]))
      case (Some(y), Some(x)) => Some((y, x))
      case _ => None
  }

  lemma {:induction false} JoinSplit(s: string, sep: char)
    ensures Join(Split(s, sep), sep) == s
    decreases |s|
  {
    if |s| == 0 {
    } else if s[0] == sep {
      JoinSplit(s[1..], sep);
      assert Split(s, sep)[1..] == Split(s[1..], sep);
      assert s == [sep] + s[1..];
    } else {
      JoinSplit(s[1..], sep);
      var rest := Split(s[1..], sep);
      var parts := Split(s, sep);
      assert s == [s[0]] + s[1..];
      if |rest| == 1 {
        assert parts == [[s[0]] + rest[0]];
      } else {
        assert parts[1..] == rest[1..];
        assert Join(rest, sep) == rest[0] + [sep] + Join(rest[1..], sep);
      }
    }
  }

  lemma {:induction false} SplitWithoutSep(s: string, sep: char)
    requires sep !in s
    ensures Split(s, sep) == [s]
    decreases |s|
  {
    if |s| > 0 {
      SplitWithoutSep(s[1..], sep);
      assert s == [s[0]] + s[1..];
    }
  }

  lemma {:induction false} SplitAtSep(a: string, b: string, sep: char)
    requires sep !in a && sep !in b
    ensures Split(a + [sep] + b, sep) == [a, b]
    decreases |a|
  {
    var s := a + [sep] + b;
    if |a| == 0 {
      assert s == [sep] + b;
      assert s[1..] == b;
      SplitWithoutSep(b, sep);
    } else {
      assert s[1..] == a[1..] + [sep] + b;
      SplitAtSep(a[1..], b, sep);
      assert [a[0]] + a[1..] == a;
    }
  }

  lemma {:induction false} DigitsValueOfDecimal(n: nat)
    ensures DigitsValue(DecimalString(n)) == n
    decreases n
  {
    var s := DecimalString(n);
    if n >= 10 {
      DigitsValueOfDecimal(n / 10);
      assert s[..|s| - 1] == DecimalString(n / 10);
    }
  }

  lemma {:induction false} NumberOfDecimal(n: nat)
    ensures NumberOf(DecimalString(n)) == Some(n)
  {
    DigitsValueOfDecimal(n);
  }

  /** A non-empty digit string that does not start with '0' has a positive value. */
  lemma {:induction false} DigitsValuePositive(s: string)
    requires |s| > 0 && AllDigits(s) && s[0] != '0'
    ensures DigitsValue(s) >= 1
    decreases |s|
  {
    if |s| > 1 {
      DigitsValuePositive(s[..|s| - 1]);
    }
  }

  /** The decimal text of the value of a canonical part is that part. */
  lemma {:induction false} DecimalOfDigits(s: string)
    requires Canonical(s)
    ensures DecimalString(DigitsValue(s)) == s
    decreases |s|
  {
    if |s| > 1 {
      var p := s[..|s| - 1];
      DigitsValuePositive(p);
      DecimalOfDigits(p);
      var n := DigitsValue(s);
      var d := s[|s| - 1] as int - '0' as int;
      assert n == DigitsValue(p) * 10 + d && 0 <= d < 10;
      assert n / 10 == DigitsValue(p) && n % 10 == d;
      assert DigitChar(d) == s[|s| - 1];
      assert s == p + [s[|s| - 1]];
    }
  }

  /** A key made of two canonical numbers joined by '-' is the rendered key of the
      cell it parses to: the round trip in the other direction. */
  lemma FormatParse(key: string)
    requires |Split(key, '-')| == 2
    requires Canonical(Split(key, '-')[0]) && Canonical(Split(key, '-')[1])
    ensures Parse(key).Some?
    ensures Format(Parse(key).value.0, Parse(key).value.1) == key
  {
    var parts := Split(key, '-');
    JoinSplit(key, '-');
    assert Join(parts, '-') == parts[0] + ['-'] + parts[1];
  }

  /** Parsing a rendered key gives back exactly the cell it was rendered for. */
  lemma {:induction false} ParseFormat(y: nat, x: nat)
    ensures Parse(Format(y, x)) == Some((y, x))
  {
    var a, b := DecimalString(y), DecimalString(x);
    assert '-' !in a && '-' !in b;
    assert Format(y, x) == a + ['-'] + b;
    SplitAtSep(a, b, '-');
    NumberOfDecimal(y);
    NumberOfDecimal(x);
  }

  /** Distinct cells are rendered under distinct keys. */
  lemma FormatInjective(y: nat, x: nat, y': nat, x': nat)
    requires Format(y, x) == Format(y', x')
    ensures y == y' && x == x'
  {
    ParseFormat(y, x);
    ParseFormat(y', x');
  }
}

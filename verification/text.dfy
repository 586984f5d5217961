/** The string operations the token format is built from: Python's `str.split`
    and `str.join` with a one-character separator, ASCII `isdigit`, and the
    decimal form of a non-negative integer as written by `str` and read by `int`. */
module Text {
  import opened Outcomes

  /** Position of the first `sep` in `s`, or `|s|` when there is none. */
  function IndexOf(s: string, sep: char): (k: nat)
    ensures k <= |s|
    ensures k < |s| ==> s[k] == sep
    ensures forall j :: 0 <= j < k ==> s[j] != sep
  {
    if |s| == 0 then 0
    else if s[0] == sep then 0
    else 1 + IndexOf(s[1..], sep)
  }

  /** `sep.join(parts)`: the empty list joins to the empty string. */
  function Join(parts: seq<string>, sep: char): string
  {
    if |parts| == 0 then ""
    else if |parts| == 1 then parts[0]
    else parts[0] + [sep] + Join(parts[1..], sep)
  }

  /** The separator occurs in a join exactly when there are two or more parts
      or some part already holds it. */
  lemma {:induction false} JoinContainsSeparator(parts: seq<string>, sep: char)
    ensures sep in Join(parts, sep) <==> |parts| >= 2 || exists i :: 0 <= i < |parts| && sep in parts[i]
  {
    if |parts| >= 2 {
      var r := Join(parts, sep);
      assert r[|parts[0]|] == sep;
    } else if |parts| == 1 {
      assert Join(parts, sep) == parts[0];
    }
  }

  /** `s.split(sep)`: every separator ends one piece, so the result is never empty
      and keeps empty pieces. */
  function Split(s: string, sep: char): (r: seq<string>)
    ensures |r| >= 1
    ensures forall i :: 0 <= i < |r| ==> sep !in r[i]
    ensures Join(r, sep) == s
    decreases |s|
  {
    var k := IndexOf(s, sep);
    if k == |s| then
      [s]
    else
      var rest := Split(s[k + 1..], sep);
      assert s == s[..k] + [sep] + s[k + 1..];
      [s[..k]] + rest
  }

  /** Splitting what was joined gives back the pieces, as long as no piece
      contains the separator. */
  lemma {:induction false} SplitJoin(parts: seq<string>, sep: char)
    requires |parts| >= 1
    requires forall i :: 0 <= i < |parts| ==> sep !in parts[i]
    ensures Split(Join(parts, sep), sep) == parts
  {
    if |parts| > 1 {
      var s := Join(parts, sep);
      var head := parts[0];
      assert s == head + [sep] + Join(parts[1..], sep);
      assert s[|head|] == sep;
      var k := IndexOf(s, sep);
      assert k == |head|;
      assert s[..k] == head;
      assert s[k + 1..] == Join(parts[1..], sep);
      SplitJoin(parts[1..], sep);
      assert parts == [head] + parts[1..];
    } else {
      assert IndexOf(parts[0], sep) == |parts[0]|;
    }
  }

  /** Appending a separator does not move the first separator of a text. */
  lemma {:induction false} IndexOfAppend(s: string, sep: char)
    ensures IndexOf(s + [sep], sep) == IndexOf(s, sep)
  {
    if |s| > 0 && s[0] != sep {
      IndexOfAppend(s[1..], sep);
      assert (s + [sep])[1..] == s[1..] + [sep];
    }
  }

  /** A text splits into two or more pieces exactly when it holds the separator. */
  lemma SplitIntoSeveral(s: string, sep: char)
    ensures |Split(s, sep)| >= 2 <==> sep in s
  {
    JoinContainsSeparator(Split(s, sep), sep);
  }

  /** A separator appended to a text adds one empty piece at the end. */
  lemma {:induction false} SplitAppendSeparator(s: string, sep: char)
    ensures Split(s + [sep], sep) == Split(s, sep) + [""]
    decreases |s|
  {
    var k := IndexOf(s, sep);
    if k == |s| {
      SplitAppendWithoutSeparator(s, sep);
    } else {
      var t := s + [sep];
      IndexOfAppend(s, sep);
      assert t[..k] == s[..k];
      assert t[k + 1..] == s[k + 1..] + [sep];
      SplitAppendSeparator(s[k + 1..], sep);
      var rest := Split(s[k + 1..], sep);
      calc {
        Split(t, sep);
        [s[..k]] + Split(s[k + 1..] + [sep], sep);
        [s[..k]] + (rest + [""]);
        ([s[..k]] + rest) + [""];
        Split(s, sep) + [""];
      }
    }
  }

  lemma SplitAppendWithoutSeparator(s: string, sep: char)
    requires IndexOf(s, sep) == |s|
    ensures Split(s + [sep], sep) == [s, ""]
  {
    var t := s + [sep];
    IndexOfAppend(s, sep);
    assert t[..|s|] == s;
    assert t[|s| + 1..] == [];
    assert Split([], sep) == [""];
  }

  /** A join whose last part is empty ends with the separator. */
  lemma {:induction false} JoinEndsWithSeparator(parts: seq<string>, sep: char)
    requires |parts| >= 2 && parts[|parts| - 1] == ""
    ensures |Join(parts, sep)| > 0 && Join(parts, sep)[|Join(parts, sep)| - 1] == sep
  {
    if |parts| > 2 {
      JoinEndsWithSeparator(parts[1..], sep);
    }
  }

  predicate IsAsciiDigit(c: char)
  {
    '0' <= c <= '9'
  }

  /** `s.isdigit()`, restricted to ASCII digits: non-empty and digits only. */
  predicate IsDigits(s: string)
  {
    |s| > 0 && forall i :: 0 <= i < |s| ==> IsAsciiDigit(s[i])
  }

  function DigitValue(c: char): nat
    requires IsAsciiDigit(c)
  {
    c as int - '0' as int
  }

  function DigitChar(d: nat): (c: char)
    requires d < 10
    ensures IsAsciiDigit(c) && DigitValue(c) == d
  {
    ['0', '1', '2', '3', '4', '5', '6', '7', '8', '9'][d]
  }

  /** The number a string of ASCII digits denotes, leading zeros allowed. */
  function DigitsValue(s: string): nat
    requires forall i :: 0 <= i < |s| ==> IsAsciiDigit(s[i])
  {
    if |s| == 0 then 0
    else DigitsValue(s[..|s| - 1]) * 10 + DigitValue(s[|s| - 1])
  }

  /** `str(n)` for a non-negative `n`. */
  function Decimal(n: nat): (r: string)
    ensures IsDigits(r)
    ensures |r| > 1 ==> r[0] != '0'
  {
    if n < 10 then [DigitChar(n)]
    else Decimal(n / 10) + [DigitChar(n % 10)]
  }

  /** `int(s)` on the inputs this model admits: a digit string parses, anything
      else is the `ValueError` case. */
  function ParseNat(s: string): (r: Option<nat>)
    ensures r.Some? <==> IsDigits(s)
  {
    if IsDigits(s) then Some(DigitsValue(s)) else None
  }

  /** Reading back the decimal form of `n` gives `n`. */
  lemma {:induction false} ParseDecimal(n: nat)
    ensures ParseNat(Decimal(n)) == Some(n)
  {
    var s := Decimal(n);
    if n >= 10 {
      ParseDecimal(n / 10);
      assert s[..|s| - 1] == Decimal(n / 10);
      assert DigitsValue(s) == (n / 10) * 10 + n % 10;
    }
  }

  /** Decimal forms never contain a `.` or a line break. */
  lemma DecimalHasNoSeparator(n: nat)
    ensures '.' !in Decimal(n) && '\n' !in Decimal(n)
  {
    var s := Decimal(n);
    assert forall i :: 0 <= i < |s| ==> IsAsciiDigit(s[i]);
  }
}

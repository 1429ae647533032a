/**
  The few Python string built-ins the core relies on, on `seq<char>`:
  `s.count(c)`, `s.split(c)` and `c.join(fields)` for a one-character
  separator, `s.strip(chars)`, `f"{n}"` for an integer and `int(s)` on the
  decimal strings that `f"{n}"` produces.
 */
module PyStr {
  import opened Wrappers

  /** `s.count(c)` for a one-character `c`. */
  function Count(s: string, c: char): (n: nat)
    ensures n <= |s|
    ensures n == 0 <==> c !in s
  {
    if s == [] then 0 else (if s[0] == c then 1 else 0) + Count(s[1..], c)
  }

  /** `sep.join(fields)`. */
  function Join(fields: seq<string>, sep: char): string
  {
    if |fields| == 0 then ""
    else if |fields| == 1 then fields[0]
    else fields[0] + [sep] + Join(fields[1..], sep)
  }

  /**
    `s.split(sep)` for a one-character separator: the pieces between the
    separators, one more piece than there are separators, empty pieces kept.
   */
  function Split(s: string, sep: char): (fields: seq<string>)
    ensures |fields| == Count(s, sep) + 1
    ensures forall i :: 0 <= i < |fields| ==> sep !in fields[i]
    ensures forall i, ch :: 0 <= i < |fields| && ch in fields[i] ==> ch in s
  {
    if s == [] then [""]
    else
      var rest := Split(s[1..], sep);
      assert forall ch :: ch in s[1..] ==> ch in s;
      if s[0] == sep then [""] + rest
      else [[s[0]] + rest[0]] + rest[1..]
  }

  /** Python's `fields[-1]`. */
  function Last<T>(fields: seq<T>): T
    requires fields != []
  {
    fields[|fields| - 1]
  }

  /** Joining the pieces of a split with the same separator gives back the text. */
  lemma {:induction false} JoinSplit(s: string, sep: char)
    ensures Join(Split(s, sep), sep) == s
  {
    if s != [] {
      var rest := Split(s[1..], sep);
      JoinSplit(s[1..], sep);
      if s[0] == sep {
        assert Split(s, sep) == [""] + rest;
        assert ([""] + rest)[1..] == rest;
      } else {
        var fs := Split(s, sep);
        assert fs == [[s[0]] + rest[0]] + rest[1..];
        if |rest| > 1 {
          assert fs[1..] == rest[1..];
          assert Join(rest, sep) == rest[0] + [sep] + Join(rest[1..], sep);
        }
      }
    }
  }

  /** Text without the separator splits into itself alone. */
  lemma {:induction false} SplitWithoutSeparator(s: string, sep: char)
    requires sep !in s
    ensures Split(s, sep) == [s]
  {
    var fs := Split(s, sep);
    assert |fs| == 1;
    JoinSplit(s, sep);
  }

  /** Splitting a join of separator-free pieces gives back the pieces. */
  lemma {:induction false} SplitJoin(fields: seq<string>, sep: char)
    requires fields != []
    requires forall i :: 0 <= i < |fields| ==> sep !in fields[i]
    ensures Split(Join(fields, sep), sep) == fields
  {
    if |fields| == 1 {
      SplitWithoutSeparator(fields[0], sep);
    } else {
      SplitJoin(fields[1..], sep);
      SplitAfterPiece(fields[0], Join(fields[1..], sep), sep);
    }
  }

  lemma {:induction false} SplitAfterPiece(a: string, b: string, sep: char)
    requires sep !in a
    ensures Split(a + [sep] + b, sep) == [a] + Split(b, sep)
  {
    if a == [] {
      assert (a + [sep] + b)[1..] == b;
    } else {
      assert (a + [sep] + b)[1..] == a[1..] + [sep] + b;
      SplitAfterPiece(a[1..], b, sep);
      assert [a[0]] + a[1..] == a;
    }
  }

  /** A join of two or more pieces ends with the separator and the last piece. */
  lemma {:induction false} JoinSnoc(fields: seq<string>, sep: char)
    requires |fields| >= 2
    ensures Join(fields, sep) == Join(fields[..|fields| - 1], sep) + [sep] + Last(fields)
  {
    if |fields| > 2 {
      JoinSnoc(fields[1..], sep);
      assert fields[1..][..|fields| - 2] == fields[1..|fields| - 1];
      assert fields[..|fields| - 1][1..] == fields[1..|fields| - 1];
    }
  }

  /** The last piece of a split is what follows the last separator. */
  lemma {:induction false} SplitLastIsSuffix(s: string, sep: char) returns (before: string)
    ensures s == before + Last(Split(s, sep))
    ensures before == [] || before[|before| - 1] == sep
  {
    var fs := Split(s, sep);
    JoinSplit(s, sep);
    if |fs| == 1 {
      before := [];
    } else {
      JoinSnoc(fs, sep);
      before := Join(fs[..|fs| - 1], sep) + [sep];
    }
  }

  /** The first piece of a split is what precedes the first separator. */
  lemma {:induction false} SplitFirstIsPrefix(s: string, sep: char) returns (after: string)
    ensures s == Split(s, sep)[0] + after
    ensures after == [] || after[0] == sep
  {
    var fs := Split(s, sep);
    JoinSplit(s, sep);
    if |fs| == 1 {
      after := [];
    } else {
      after := [sep] + Join(fs[1..], sep);
    }
  }

  /** Length of the leading run of characters from `cs`. */
  function LeadLen(s: string, cs: set<char>): (n: nat)
    ensures n <= |s|
    ensures forall k :: 0 <= k < n ==> s[k] in cs
    ensures n < |s| ==> s[n] !in cs
  {
    if s != [] && s[0] in cs then 1 + LeadLen(s[1..], cs) else 0
  }

  /** Length of the trailing run of characters from `cs`. */
  function TrailLen(s: string, cs: set<char>): (n: nat)
    ensures n <= |s|
    ensures forall k :: |s| - n <= k < |s| ==> s[k] in cs
    ensures n < |s| ==> s[|s| - 1 - n] !in cs
  {
    if s != [] && s[|s| - 1] in cs then 1 + TrailLen(s[..|s| - 1], cs) else 0
  }

  /** `s.strip(chars)`: both end runs of characters from `cs` removed. */
  function Strip(s: string, cs: set<char>): string
  {
    var t := s[LeadLen(s, cs)..];
    t[..|t| - TrailLen(t, cs)]
  }

  /**
    What strip keeps is one contiguous piece `s[i..j]` of the text: everything
    before `i` and from `j` on is from `cs`, and the piece neither starts nor
    ends with a character from `cs`; when nothing is kept, all of `s` was in `cs`.
   */
  lemma {:induction false} StripBounds(s: string, cs: set<char>) returns (i: nat, j: nat)
    ensures i <= j <= |s| && Strip(s, cs) == s[i..j]
    ensures forall k :: 0 <= k < i ==> s[k] in cs
    ensures forall k :: j <= k < |s| ==> s[k] in cs
    ensures Strip(s, cs) != [] ==> s[i] !in cs && s[j - 1] !in cs
    ensures Strip(s, cs) == [] ==> forall k :: 0 <= k < |s| ==> s[k] in cs
  {
    i := LeadLen(s, cs);
    var t := s[i..];
    var n := TrailLen(t, cs);
    j := |s| - n;
    assert Strip(s, cs) == t[..|t| - n];
    assert forall k :: j <= k < |s| ==> s[k] == t[k - i];
    if n < |t| {
      assert t[|t| - 1 - n] == s[j - 1];
    }
  }

  predicate IsDigit(c: char) {
    '0' <= c <= '9'
  }

  function DigitChar(d: nat): (c: char)
    requires d < 10
    ensures IsDigit(c)
  {
    ('0' as int + d) as char
  }

  function DigitValue(c: char): (d: nat)
    requires IsDigit(c)
    ensures d < 10
  {
    c as int - '0' as int
  }

  predicate AllDigits(s: string) {
    forall k :: 0 <= k < |s| ==> IsDigit(s[k])
  }

  /** `f"{n}"` for a non-negative integer: its decimal digits, no leading zero. */
  function Decimal(n: nat): (s: string)
    ensures s != [] && AllDigits(s)
  {
    if n < 10 then [DigitChar(n)] else Decimal(n / 10) + [DigitChar(n % 10)]
  }

  /** The value of a string of decimal digits, most significant first. */
  function DigitsValue(s: string): nat
    requires AllDigits(s)
  {
    if s == [] then 0 else 10 * DigitsValue(s[..|s| - 1]) + DigitValue(s[|s| - 1])
  }

  /** `int(s)` restricted to strings of decimal digits; anything else is a ValueError. */
  function ParseDecimal(s: string): Option<nat>
  {
    if s != [] && AllDigits(s) then Some(DigitsValue(s)) else None
  }

  /** `int(f"{n}") == n`. */
  lemma {:induction false} ParseDecimalOfDecimal(n: nat)
    ensures ParseDecimal(Decimal(n)) == Some(n)
  {
    var s := Decimal(n);
    assert DigitValue(DigitChar(n % 10)) == n % 10;
    if n >= 10 {
      ParseDecimalOfDecimal(n / 10);
      assert s[..|s| - 1] == Decimal(n / 10);
      assert DigitsValue(s) == 10 * (n / 10) + n % 10;
    } else {
      assert s == [DigitChar(n)];
      assert s[..|s| - 1] == [];
      assert DigitValue(DigitChar(n)) == n;
      assert DigitsValue(s) == 10 * DigitsValue([]) + DigitValue(s[0]);
    }
  }

  /** `f"{i}"` for any integer: a minus sign before the digits of a negative one. */
  function IntText(i: int): (s: string)
    ensures s != [] && forall k :: 0 <= k < |s| ==> s[k] == '-' || IsDigit(s[k])
  {
    if i < 0 then "-" + Decimal(-i) else Decimal(i)
  }

  /** `int(s)` on an optionally signed string of decimal digits. */
  function ParseInt(s: string): Option<int>
  {
    if s != [] && s[0] == '-' then
      match ParseDecimal(s[1..])
      case Some(n) => Some(-(n as int))
      case None => None
    else
      match ParseDecimal(s)
      case Some(n) => Some(n)
      case None => None
  }

  /** `int(f"{i}") == i`. */
  lemma {:induction false} ParseIntOfIntText(i: int)
    ensures ParseInt(IntText(i)) == Some(i)
  {
    if i < 0 {
      ParseDecimalOfDecimal(-i);
      assert IntText(i)[1..] == Decimal(-i);
    } else {
      ParseDecimalOfDecimal(i);
    }
  }
}

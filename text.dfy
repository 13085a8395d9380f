/** String helpers the controllers rely on: JavaScript's `split` on a
    one-character separator, and the decimal rendering of integers that
    JavaScript uses when a number is concatenated to a string. */
module Text {

  /** Index of the first occurrence of `c` in `s`. */
  function IndexOf(s: string, c: char): (i: nat)
    requires c in s
    ensures i < |s| && s[i] == c
    ensures forall m :: 0 <= m < i ==> s[m] != c
  {
    if s[0] == c then 0 else 1 + IndexOf(s[1..], c)
  }

  /** `s.split(sep)`: the pieces between separators, in order; the empty
      string splits into one empty piece and adjacent separators give
      empty pieces. */
  function Split(s: string, sep: char): (parts: seq<string>)
    ensures |parts| >= 1
    ensures forall k :: 0 <= k < |parts| ==> sep !in parts[k]
    decreases |s|
  {
    if sep !in s then [s]
    else
      var i := IndexOf(s, sep);
      [s[..i]] + Split(s[i + 1..], sep)
  }

  /** `parts.join(sep)`. */
  function Join(parts: seq<string>, sep: char): string
    requires |parts| >= 1
  {
    if |parts| == 1 then parts[0] else parts[0] + [sep] + Join(parts[1..], sep)
  }

  /** Splitting loses nothing: joining the pieces gives back the string. */
  lemma {:induction false} JoinSplit(s: string, sep: char)
    ensures Join(Split(s, sep), sep) == s
    decreases |s|
  {
    if sep in s {
      var i := IndexOf(s, sep);
      var parts := Split(s, sep);
      assert parts == [s[..i]] + Split(s[i + 1..], sep);
      assert parts[1..] == Split(s[i + 1..], sep);
      JoinSplit(s[i + 1..], sep);
      assert Join(parts, sep) == s[..i] + [sep] + s[i + 1..];
      assert s == s[..i] + [sep] + s[i + 1..];
    }
  }

  /** Joining separator-free pieces and splitting again gives the pieces back. */
  lemma {:induction false} SplitJoin(parts: seq<string>, sep: char)
    requires |parts| >= 1
    requires forall k :: 0 <= k < |parts| ==> sep !in parts[k]
    ensures Split(Join(parts, sep), sep) == parts
  {
    if |parts| > 1 {
      var s := Join(parts, sep);
      var p := parts[0];
      var rest := Join(parts[1..], sep);
      assert s == p + [sep] + rest;
      assert s[|p|] == sep;
      var i := IndexOf(s, sep);
      assert forall m :: 0 <= m < |p| ==> s[m] == p[m];
      assert i == |p|;
      assert s[..i] == p;
      assert s[i + 1..] == rest;
      SplitJoin(parts[1..], sep);
    }
  }

  /** `s[i..j]` is one whole field of `s`: it holds no separator and is
      bounded on each side by an end of `s` or by a separator. */
  ghost predicate FieldAt(s: string, sep: char, i: int, j: int)
  {
    0 <= i <= j <= |s| && sep !in s[i..j]
    && (i == 0 || s[i - 1] == sep) && (j == |s| || s[j] == sep)
  }

  /** `x` occurs in `s` as a whole field. */
  ghost predicate IsField(s: string, sep: char, x: string)
  {
    exists i, j :: FieldAt(s, sep, i, j) && s[i..j] == x
  }

  lemma NoSeparatorBefore(s: string, sep: char, i: int, j: int)
    requires 0 <= i <= j <= |s| && sep !in s[i..j]
    ensures forall m :: i <= m < j ==> s[m] != sep
  {
    forall m | i <= m < j ensures s[m] != sep {
      assert s[i..j][m - i] == s[m];
    }
  }

  /** A field of the text after the first separator is a field of the
      whole text, shifted past that separator. */
  lemma ShiftField(s: string, sep: char, k: nat, i: int, j: int)
    requires k < |s| && s[k] == sep
    requires FieldAt(s[k + 1..], sep, i, j)
    ensures FieldAt(s, sep, i + k + 1, j + k + 1)
    ensures s[i + k + 1..j + k + 1] == s[k + 1..][i..j]
  {
    var rest := s[k + 1..];
    assert s[i + k + 1..j + k + 1] == rest[i..j];
    if i > 0 { assert s[i + k] == rest[i - 1]; }
    if j < |rest| { assert s[j + k + 1] == rest[j]; }
  }

  /** A field of the whole text that starts after its first separator is
      a field of the text after that separator. */
  lemma UnshiftField(s: string, sep: char, k: nat, i: int, j: int)
    requires k < |s| && s[k] == sep && k + 1 <= i
    requires FieldAt(s, sep, i, j)
    ensures FieldAt(s[k + 1..], sep, i - k - 1, j - k - 1)
    ensures s[k + 1..][i - k - 1..j - k - 1] == s[i..j]
  {
    var rest := s[k + 1..];
    assert rest[i - k - 1..j - k - 1] == s[i..j];
    if i - k - 1 > 0 { assert rest[i - k - 2] == s[i - 1]; }
    if j - k - 1 < |rest| { assert rest[j - k - 1] == s[j]; }
  }

  lemma {:induction false} SplitPiecesAreFields(s: string, sep: char, x: string)
    requires x in Split(s, sep)
    ensures IsField(s, sep, x)
    decreases |s|
  {
    if sep !in s {
      assert x == s;
      assert FieldAt(s, sep, 0, |s|) && s[0..|s|] == x;
    } else {
      var k := IndexOf(s, sep);
      var rest := s[k + 1..];
      assert Split(s, sep) == [s[..k]] + Split(rest, sep);
      if x == s[..k] {
        assert s[0..k] == s[..k];
        NoSeparatorBefore(s, sep, 0, k);
        assert FieldAt(s, sep, 0, k);
      } else {
        assert x in Split(rest, sep);
        SplitPiecesAreFields(rest, sep, x);
        var i, j :| FieldAt(rest, sep, i, j) && rest[i..j] == x;
        ShiftField(s, sep, k, i, j);
      }
    }
  }

  lemma {:induction false} FieldsAreSplitPieces(s: string, sep: char, x: string)
    requires IsField(s, sep, x)
    ensures x in Split(s, sep)
    decreases |s|
  {
    var i, j :| FieldAt(s, sep, i, j) && s[i..j] == x;
    NoSeparatorBefore(s, sep, i, j);
    if sep !in s {
      assert i == 0 && j == |s|;
      assert s[i..j] == s;
    } else {
      var k := IndexOf(s, sep);
      var rest := s[k + 1..];
      assert Split(s, sep) == [s[..k]] + Split(rest, sep);
      if i == 0 {
        assert j == k;
        assert x == s[..k];
      } else {
        assert i >= k + 1;
        UnshiftField(s, sep, k, i, j);
        FieldsAreSplitPieces(rest, sep, x);
      }
    }
  }

  /** The pieces of a split are exactly the whole fields of the string:
      a piece is never a mere prefix, suffix or inner part of a field. */
  lemma InSplitIffField(s: string, sep: char, x: string)
    ensures x in Split(s, sep) <==> IsField(s, sep, x)
  {
    if x in Split(s, sep) { SplitPiecesAreFields(s, sep, x); }
    if IsField(s, sep, x) { FieldsAreSplitPieces(s, sep, x); }
  }

  /** The character of a decimal digit. */
  function DigitChar(d: nat): (c: char)
    requires d < 10
    ensures '0' <= c <= '9'
  {
    (d + '0' as int) as char
  }

  /** The value of a decimal digit character (0 for any other character). */
  function DigitValue(c: char): nat
  {
    if '0' <= c <= '9' then c as int - '0' as int else 0
  }

  predicate IsDigits(s: string)
  {
    forall k :: 0 <= k < |s| ==> '0' <= s[k] <= '9'
  }

  /** Decimal rendering of a natural number, without leading zeros. */
  function NatToDecimal(n: nat): (s: string)
    ensures |s| >= 1 && IsDigits(s)
  {
    if n < 10 then [DigitChar(n)] else NatToDecimal(n / 10) + [DigitChar(n % 10)]
  }

  /** `String(n)` for an integer-valued JavaScript number. */
  function IntToDecimal(n: int): (s: string)
    ensures |s| >= 1
  {
    if n < 0 then "-" + NatToDecimal(-n) else NatToDecimal(n)
  }

  /** Reads back a string of decimal digits. */
  function ParseDecimal(s: string): nat
  {
    if |s| == 0 then 0 else ParseDecimal(s[..|s| - 1]) * 10 + DigitValue(s[|s| - 1])
  }

  /** Reads back an optionally signed decimal string. */
  function ParseInt(s: string): int
  {
    if |s| > 0 && s[0] == '-' then -(ParseDecimal(s[1..]) as int) else ParseDecimal(s)
  }

  lemma {:induction false} ParseNatToDecimal(n: nat)
    ensures ParseDecimal(NatToDecimal(n)) == n
  {
    if n >= 10 {
      ParseNatToDecimal(n / 10);
      var s := NatToDecimal(n);
      assert s[..|s| - 1] == NatToDecimal(n / 10);
    }
  }

  /** Reading the rendering back gives the number: the decimal rendering
      loses no information. */
  lemma ParseIntToDecimal(n: int)
    ensures ParseInt(IntToDecimal(n)) == n
  {
    if n < 0 {
      ParseNatToDecimal(-n);
      assert IntToDecimal(n)[1..] == NatToDecimal(-n);
    } else {
      ParseNatToDecimal(n);
    }
  }

  /** Distinct integers have distinct renderings. */
  lemma IntToDecimalInjective(a: int, b: int)
    ensures IntToDecimal(a) == IntToDecimal(b) <==> a == b
  {
    ParseIntToDecimal(a);
    ParseIntToDecimal(b);
  }
}

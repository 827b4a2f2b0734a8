/**
 * The JavaScript built-ins the serializers lean on, with their ECMAScript
 * meaning written out: `undefined`, thrown values, the numbers `parseInt`
 * yields and `===` on them, the `\s` character class, and
 * `String.prototype.split` / `Array.prototype.join` with a one-character
 * separator.
 */
module Js {

  /** A value that may be `undefined`. */
  datatype Option<+T> = None | Some(value: T)

  /** The outcome of a call that may throw. */
  datatype Result<+R, +E> = Success(value: R) | Failure(error: E)

  /** A number as `parseInt` produces it: an integer or NaN. */
  datatype Num = Int(n: int) | NaN

  /** `a === b` on numbers: NaN equals nothing, not even itself. */
  predicate StrictEquals(a: Num, b: Num)
  {
    a.Int? && b.Int? && a.n == b.n
  }

  /**
   * Membership in `\s` of ECMAScript regular expressions: the WhiteSpace and
   * LineTerminator code points. `parseInt` skips exactly the same set.
   */
  predicate IsWhiteSpace(c: char)
  {
    var k := c as int;
    k == 0x09 || k == 0x0A || k == 0x0B || k == 0x0C || k == 0x0D ||
    k == 0x20 || k == 0xA0 || k == 0x1680 || 0x2000 <= k <= 0x200A ||
    k == 0x2028 || k == 0x2029 || k == 0x202F || k == 0x205F ||
    k == 0x3000 || k == 0xFEFF
  }

  predicate AllWhiteSpace(s: string)
  {
    forall i :: 0 <= i < |s| ==> IsWhiteSpace(s[i])
  }

  predicate NoWhiteSpace(s: string)
  {
    forall i :: 0 <= i < |s| ==> !IsWhiteSpace(s[i])
  }

  predicate IsDigit(c: char)
  {
    '0' <= c <= '9'
  }

  predicate AllDigits(s: string)
  {
    forall i :: 0 <= i < |s| ==> IsDigit(s[i])
  }

  /** The length of the longest run of white space that starts `s`. */
  function LeadingWhiteSpace(s: string): (k: nat)
    ensures k <= |s|
    ensures k < |s| ==> !IsWhiteSpace(s[k])
  {
    if |s| == 0 || !IsWhiteSpace(s[0]) then 0 else 1 + LeadingWhiteSpace(s[1..])
  }

  /** Everything `LeadingWhiteSpace` counts is white space. */
  lemma {:induction false} LeadingWhiteSpaceAll(s: string)
    ensures forall i :: 0 <= i < LeadingWhiteSpace(s) ==> IsWhiteSpace(s[i])
  {
    if |s| > 0 && IsWhiteSpace(s[0]) {
      LeadingWhiteSpaceAll(s[1..]);
      forall i | 1 <= i < LeadingWhiteSpace(s)
        ensures IsWhiteSpace(s[i])
      {
        assert s[i] == s[1..][i - 1];
      }
    }
  }

  /** A white-space run of length `k` followed by something else is the leading run. */
  lemma {:induction false} LeadingWhiteSpaceIs(s: string, k: nat)
    requires k <= |s| && (k < |s| ==> !IsWhiteSpace(s[k]))
    requires forall i :: 0 <= i < k ==> IsWhiteSpace(s[i])
    ensures LeadingWhiteSpace(s) == k
  {
    if k > 0 {
      forall i | 0 <= i < k - 1
        ensures IsWhiteSpace(s[1..][i])
      {
        assert s[1..][i] == s[i + 1];
      }
      LeadingWhiteSpaceIs(s[1..], k - 1);
    }
  }

  /** The length of the longest run of white space that ends `s`. */
  function TrailingWhiteSpace(s: string): (k: nat)
    ensures k <= |s|
    ensures k < |s| ==> !IsWhiteSpace(s[|s| - 1 - k])
  {
    if |s| == 0 || !IsWhiteSpace(s[|s| - 1]) then 0
    else 1 + TrailingWhiteSpace(s[..|s| - 1])
  }

  /** Everything `TrailingWhiteSpace` counts is white space. */
  lemma {:induction false} TrailingWhiteSpaceAll(s: string)
    ensures forall i :: |s| - TrailingWhiteSpace(s) <= i < |s| ==> IsWhiteSpace(s[i])
  {
    if |s| > 0 && IsWhiteSpace(s[|s| - 1]) {
      var front := s[..|s| - 1];
      TrailingWhiteSpaceAll(front);
      forall i | |s| - TrailingWhiteSpace(s) <= i < |s| - 1
        ensures IsWhiteSpace(s[i])
      {
        assert s[i] == front[i];
      }
    }
  }

  /** The length of the longest run of decimal digits that starts `s`. */
  function DigitPrefixLength(s: string): (k: nat)
    ensures k <= |s|
    ensures k < |s| ==> !IsDigit(s[k])
  {
    if |s| == 0 || !IsDigit(s[0]) then 0 else 1 + DigitPrefixLength(s[1..])
  }

  /** Everything `DigitPrefixLength` counts is a digit. */
  lemma {:induction false} DigitPrefixAllDigits(s: string)
    ensures AllDigits(s[..DigitPrefixLength(s)])
  {
    if |s| > 0 && IsDigit(s[0]) {
      DigitPrefixAllDigits(s[1..]);
      var k := DigitPrefixLength(s);
      assert s[..k] == [s[0]] + s[1..][..k - 1];
    }
  }

  /** The value of a string of decimal digits, most significant first. */
  function DecimalValue(ds: string): nat
    requires AllDigits(ds)
  {
    if |ds| == 0 then 0
    else 10 * DecimalValue(ds[..|ds| - 1]) + (ds[|ds| - 1] as int - '0' as int)
  }

  /**
   * `parseInt(s, 10)`: skip leading white space, take one optional sign,
   * then read the longest run of decimal digits; no digit at all is NaN.
   * A negative zero is the same key and the same `===` class as zero, so
   * it is 0 here.
   */
  function ParseInt(s: string): Num
  {
    var t := s[LeadingWhiteSpace(s)..];
    var negative := |t| > 0 && t[0] == '-';
    var u := if |t| > 0 && (t[0] == '-' || t[0] == '+') then t[1..] else t;
    var k := DigitPrefixLength(u);
    DigitPrefixAllDigits(u);
    if k == 0 then NaN
    else
      var magnitude: int := DecimalValue(u[..k]);
      Int(if negative then -magnitude else magnitude)
  }

  /** The decimal spelling of a natural number, an independent reference for `ParseInt`. */
  function Digits(n: nat): (ds: string)
    ensures |ds| >= 1 && AllDigits(ds)
  {
    if n < 10 then [('0' as int + n) as char]
    else Digits(n / 10) + [('0' as int + n % 10) as char]
  }

  /** The decimal spelling of an integer, with a `-` when it is negative. */
  function ToDecimal(n: int): string
  {
    if n < 0 then "-" + Digits(-n) else Digits(n)
  }

  lemma {:induction false} DecimalValueOfDigits(n: nat)
    ensures DecimalValue(Digits(n)) == n
  {
    if n >= 10 {
      DecimalValueOfDigits(n / 10);
      var ds := Digits(n);
      assert ds[..|ds| - 1] == Digits(n / 10);
    }
  }

  lemma {:induction false} DigitPrefixOfAllDigits(ds: string)
    requires AllDigits(ds)
    ensures DigitPrefixLength(ds) == |ds|
  {
    if |ds| > 0 {
      DigitPrefixOfAllDigits(ds[1..]);
    }
  }

  /** Reading back the decimal spelling of any integer gives that integer. */
  lemma ParseIntRoundTrip(n: int)
    ensures ParseInt(ToDecimal(n)) == Int(n)
  {
    var m := if n < 0 then -n else n;
    var ds := Digits(m);
    DigitPrefixOfAllDigits(ds);
    DecimalValueOfDigits(m);
    assert ds[..|ds|] == ds;
    var s := ToDecimal(n);
    assert LeadingWhiteSpace(s) == 0;
    if n < 0 {
      assert s[1..] == ds;
    }
  }

  /**
   * `parseInt` reads the longest digit run and ignores whatever follows it:
   * digits followed by a non-digit read as the digits alone.
   */
  lemma ParseIntStopsAtNonDigit(ds: string, rest: string)
    requires |ds| > 0 && AllDigits(ds)
    requires |rest| > 0 ==> !IsDigit(rest[0])
    ensures ParseInt(ds + rest) == Int(DecimalValue(ds))
  {
    var s := ds + rest;
    assert LeadingWhiteSpace(s) == 0;
    DigitPrefixLengthAppend(ds, rest);
    assert s[..|ds|] == ds;
  }

  lemma {:induction false} DigitPrefixLengthAppend(ds: string, rest: string)
    requires AllDigits(ds)
    requires |rest| > 0 ==> !IsDigit(rest[0])
    ensures DigitPrefixLength(ds + rest) == |ds|
  {
    if |ds| > 0 {
      assert (ds + rest)[1..] == ds[1..] + rest;
      DigitPrefixLengthAppend(ds[1..], rest);
    } else {
      assert ds + rest == rest;
    }
  }

  /** A string whose first character is neither white space, a sign nor a digit is NaN. */
  lemma ParseIntWithoutDigits(s: string)
    requires |s| > 0 && !IsWhiteSpace(s[0]) && !IsDigit(s[0]) && s[0] != '-' && s[0] != '+'
    ensures ParseInt(s) == NaN
  {
  }

  /** `s.slice(k)` for a non-negative `k`: the empty string once `k` is past the end. */
  function SliceFrom(s: string, k: nat): (r: string)
    ensures |r| == if k <= |s| then |s| - k else 0
    ensures forall i :: 0 <= i < |r| ==> r[i] == s[k + i]
  {
    if k <= |s| then s[k..] else ""
  }

  /** The index of the first occurrence of `c` in `s`. */
  function IndexOf(s: string, c: char): (i: nat)
    requires c in s
    ensures i < |s| && s[i] == c && c !in s[..i]
  {
    if s[0] == c then 0
    else
      assert c in s[1..] by {
        var j :| 0 <= j < |s| && s[j] == c;
        assert s[1..][j - 1] == c;
      }
      var i := 1 + IndexOf(s[1..], c);
      assert s[..i] == [s[0]] + s[1..][..i - 1];
      i
  }

  /** The first occurrence is the one before which `c` does not occur. */
  lemma IndexOfIs(s: string, c: char, p: nat)
    requires p < |s| && s[p] == c && c !in s[..p]
    ensures IndexOf(s, c) == p
  {
    var i := IndexOf(s, c);
    if i < p {
      assert false;
    }
    if p < i {
      assert false;
    }
  }

  /** `parts.join(sep)` for a one-character separator. */
  function JoinWith(parts: seq<string>, sep: char): string
  {
    if |parts| == 0 then ""
    else if |parts| == 1 then parts[0]
    else parts[0] + [sep] + JoinWith(parts[1..], sep)
  }

  /**
   * `s.split(sep)` for a one-character separator: the pieces between
   * consecutive separators, an empty piece where two separators touch or
   * where `s` starts or ends with one, and `[""]` for the empty string.
   */
  function SplitOn(s: string, sep: char): (parts: seq<string>)
    ensures |parts| >= 1
    ensures forall i :: 0 <= i < |parts| ==> sep !in parts[i]
    ensures JoinWith(parts, sep) == s
    decreases |s|
  {
    if sep !in s then [s]
    else
      var i := IndexOf(s, sep);
      var rest := SplitOn(s[i + 1..], sep);
      var parts := [s[..i]] + rest;
      assert parts[1..] == rest;
      assert s == s[..i] + [sep] + s[i + 1..];
      parts
  }

  /** Splitting a join gives back the pieces, when none holds the separator. */
  lemma {:induction false} SplitJoin(parts: seq<string>, sep: char)
    requires |parts| >= 1
    requires forall i :: 0 <= i < |parts| ==> sep !in parts[i]
    ensures SplitOn(JoinWith(parts, sep), sep) == parts
    decreases |parts|
  {
    var s := JoinWith(parts, sep);
    if |parts| == 1 {
      assert s == parts[0];
    } else {
      var tail := JoinWith(parts[1..], sep);
      assert s == parts[0] + [sep] + tail;
      assert sep in s by { assert s[|parts[0]|] == sep; }
      var i := |parts[0]|;
      assert s[..i] == parts[0];
      assert s[i] == sep;
      IndexOfIs(s, sep, i);
      assert s[..i] == parts[0];
      assert s[i + 1..] == tail;
      SplitJoin(parts[1..], sep);
      assert SplitOn(s, sep) == [parts[0]] + parts[1..];
    }
  }
}

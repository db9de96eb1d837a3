/**
 * The two JavaScript string built-ins the core relies on:
 * `s.split(sep)[1]` (the API key after `Bearer `) and `parseInt(s, 10)`
 * (item ids taken from the URL).
 */
module JsString {
  import opened Wrappers

  /** `sep` occurs in `s` starting at position `k`. */
  predicate OccursAt(s: string, sep: string, k: nat)
  {
    k + |sep| <= |s| && s[k..k + |sep|] == sep
  }

  lemma OccursShift(s: string, sep: string, k: nat)
    requires |s| > 0 && k >= 1
    ensures OccursAt(s, sep, k) <==> OccursAt(s[1..], sep, k - 1)
  {
    if k + |sep| <= |s| {
      assert s[1..][k - 1..k - 1 + |sep|] == s[k..k + |sep|];
    }
  }

  /** `s.indexOf(sep)`: the first position where `sep` occurs, or None for -1. */
  function IndexOf(s: string, sep: string): (r: Option<nat>)
    ensures r.Some? ==> OccursAt(s, sep, r.value)
    ensures r.Some? ==> forall k: nat | k < r.value :: !OccursAt(s, sep, k)
    ensures r.None? ==> forall k: nat :: !OccursAt(s, sep, k)
    decreases |s|
  {
    if |s| < |sep| then None
    else if s[..|sep|] == sep then
      assert s[0..|sep|] == s[..|sep|];
      Some(0)
    else
      assert !OccursAt(s, sep, 0) by { assert s[0..|sep|] == s[..|sep|]; }
      assert forall k: nat | k >= 1 :: OccursAt(s, sep, k) <==> OccursAt(s[1..], sep, k - 1) by {
        forall k: nat | k >= 1 ensures OccursAt(s, sep, k) <==> OccursAt(s[1..], sep, k - 1) {
          OccursShift(s, sep, k);
        }
      }
      match IndexOf(s[1..], sep)
      case None => None
      case Some(k) => Some(k + 1)
  }

  /**
   * `s.split(sep)[1]` for a non-empty separator: the text between the first
   * occurrence of `sep` and the next one (or the end of `s`); None (undefined)
   * when `sep` does not occur.
   */
  function SplitSecond(s: string, sep: string): (r: Option<string>)
    requires sep != []
    ensures r.None? <==> IndexOf(s, sep).None?
    ensures r.Some? ==> IndexOf(r.value, sep).None?
  {
    match IndexOf(s, sep)
    case None => None
    case Some(i) =>
      var start := i + |sep|;
      var stop := PieceEnd(s, sep, start);
      PieceHasNoSeparator(s[start..], sep, stop - start);
      assert s[start..][..stop - start] == s[start..stop];
      Some(s[start..stop])
  }

  /** Where the piece that starts at `start` ends: at the next separator, or at the end of `s`. */
  function PieceEnd(s: string, sep: string, start: nat): (stop: nat)
    requires start <= |s|
    ensures start <= stop <= |s|
    ensures stop == |s| || OccursAt(s, sep, stop)
    ensures IndexOf(s[start..], sep) == Some(stop - start) || (stop == |s| && IndexOf(s[start..], sep).None?)
  {
    var rest := s[start..];
    match IndexOf(rest, sep)
    case None => |s|
    case Some(j) =>
      assert s[start + j..start + j + |sep|] == rest[j..j + |sep|];
      start + j
  }

  /**
   * The piece `split` yields is exactly the text that follows the first
   * separator and stops at the next separator or at the end of the string.
   */
  lemma SplitSecondIsNextPiece(s: string, sep: string, i: nat, piece: string)
    requires sep != []
    requires IndexOf(s, sep) == Some(i) && SplitSecond(s, sep) == Some(piece)
    ensures i + |sep| + |piece| <= |s|
    ensures piece == s[i + |sep|..i + |sep| + |piece|]
    ensures i + |sep| + |piece| == |s| || OccursAt(s, sep, i + |sep| + |piece|)
  {
    var stop := PieceEnd(s, sep, i + |sep|);
    assert piece == s[i + |sep|..stop];
  }

  /** A prefix of `s` that stops before the first occurrence of `sep` contains no `sep`. */
  lemma PieceHasNoSeparator(s: string, sep: string, j: nat)
    requires sep != []
    requires IndexOf(s, sep) == Some(j) || (j == |s| && IndexOf(s, sep).None?)
    ensures IndexOf(s[..j], sep).None?
  {
    var piece := s[..j];
    forall k: nat ensures !OccursAt(piece, sep, k) {
      if k + |sep| <= |piece| {
        assert piece[k..k + |sep|] == s[k..k + |sep|];
        assert k < j;
        assert !OccursAt(s, sep, k);
      }
    }
  }

  /** The prefix that precedes a bearer token in an Authorization header. */
  const BEARER: string := "Bearer "

  /** `("Bearer " + key).split("Bearer ")[1]` gives back `key` when the key itself has no `Bearer `. */
  lemma {:induction false} BearerRoundTrip(key: string)
    requires IndexOf(key, BEARER).None?
    ensures SplitSecond(BEARER + key, BEARER) == Some(key)
  {
    var s := BEARER + key;
    assert s[..|BEARER|] == BEARER;
    assert IndexOf(s, BEARER) == Some(0);
    assert s[|BEARER|..] == key;
    assert PieceEnd(s, BEARER, |BEARER|) == |s|;
    assert s[|BEARER|..|s|] == key;
  }

  predicate IsDigit(c: char)
  {
    '0' <= c <= '9'
  }

  predicate AllDigits(s: string)
  {
    forall k | 0 <= k < |s| :: IsDigit(s[k])
  }

  /** The characters `parseInt` skips before the number (StrWhiteSpaceChar of ECMA-262). */
  predicate IsJsSpace(c: char)
  {
    || c == '\t' || c == '\U{B}' || c == '\U{C}' || c == ' ' || c == '\U{A0}' || c == '\U{FEFF}'
    || c == '\U{1680}' || ('\U{2000}' <= c <= '\U{200A}') || c == '\U{202F}' || c == '\U{205F}' || c == '\U{3000}'
    || c == '\n' || c == '\r' || c == '\U{2028}' || c == '\U{2029}'
  }

  /** `s` without its leading white space. */
  function TrimStart(s: string): (r: string)
    ensures |r| <= |s| && r == s[|s| - |r|..]
    ensures r == [] || !IsJsSpace(r[0])
    ensures forall k | 0 <= k < |s| - |r| :: IsJsSpace(s[k])
    decreases |s|
  {
    if |s| > 0 && IsJsSpace(s[0]) then
      var r := TrimStart(s[1..]);
      assert forall k | 1 <= k < |s| - |r| :: s[k] == s[1..][k - 1];
      r
    else s
  }

  /** The longest run of decimal digits at the start of `s`. */
  function LeadingDigits(s: string): (r: string)
    ensures |r| <= |s| && r == s[..|r|] && AllDigits(r)
    ensures |r| == |s| || !IsDigit(s[|r|])
    decreases |s|
  {
    if |s| == 0 || !IsDigit(s[0]) then []
    else
      var r := LeadingDigits(s[1..]);
      assert s == [s[0]] + s[1..];
      [s[0]] + r
  }

  function DigitValue(c: char): nat
    requires IsDigit(c)
  {
    c as nat - '0' as nat
  }

  /** The number a string of decimal digits denotes, read left to right. */
  function DigitsValue(d: string): nat
    requires AllDigits(d)
    decreases |d|
  {
    if |d| == 0 then 0 else DigitsValue(d[..|d| - 1]) * 10 + DigitValue(d[|d| - 1])
  }

  /**
   * `parseInt(s, 10)`: skip white space, read an optional sign and the longest
   * run of digits; NaN (None) when there is no digit there. Anything after the
   * digits is ignored, so `"12abc"` gives 12.
   */
  function ParseInt(s: string): (r: Option<int>)
    ensures
      var t := TrimStart(s);
      var u := if |t| > 0 && (t[0] == '-' || t[0] == '+') then t[1..] else t;
      r.None? <==> (u == [] || !IsDigit(u[0]))
  {
    var t := TrimStart(s);
    var negative := |t| > 0 && t[0] == '-';
    var u := if |t| > 0 && (t[0] == '-' || t[0] == '+') then t[1..] else t;
    var d := LeadingDigits(u);
    if |d| == 0 then None
    else if negative then Some(-(DigitsValue(d) as int))
    else Some(DigitsValue(d))
  }

  function DigitChar(n: nat): (c: char)
    requires n < 10
    ensures IsDigit(c) && DigitValue(c) == n
  {
    ('0' as nat + n) as char
  }

  /** The decimal rendering of a natural number, without leading zeros. */
  function ToDecimal(n: nat): (r: string)
    ensures |r| > 0 && AllDigits(r)
    decreases n
  {
    if n < 10 then [DigitChar(n)] else ToDecimal(n / 10) + [DigitChar(n % 10)]
  }

  lemma {:induction false} DigitsOfDecimal(n: nat)
    ensures DigitsValue(ToDecimal(n)) == n
    decreases n
  {
    var r := ToDecimal(n);
    if n >= 10 {
      assert r[..|r| - 1] == ToDecimal(n / 10);
      DigitsOfDecimal(n / 10);
    }
  }

  lemma {:induction false} LeadingDigitsOfPrefix(d: string, rest: string)
    requires AllDigits(d)
    requires rest == [] || !IsDigit(rest[0])
    ensures LeadingDigits(d + rest) == d
    decreases |d|
  {
    if |d| > 0 {
      assert (d + rest)[1..] == d[1..] + rest;
      LeadingDigitsOfPrefix(d[1..], rest);
      assert d == [d[0]] + d[1..];
    } else {
      assert d + rest == rest;
    }
  }

  /** `parseInt` reads back the decimal rendering of a number, whatever non-digit text follows it. */
  lemma ParseDecimal(n: nat, rest: string)
    requires rest == [] || !IsDigit(rest[0])
    ensures ParseInt(ToDecimal(n) + rest) == Some(n)
  {
    var d := ToDecimal(n);
    var s := d + rest;
    assert s[0] == d[0] && IsDigit(s[0]);
    assert !IsJsSpace(s[0]);
    assert TrimStart(s) == s;
    assert !(s[0] == '-' || s[0] == '+');
    LeadingDigitsOfPrefix(d, rest);
    DigitsOfDecimal(n);
  }

  /** `parseInt` reads back a negative number: a minus sign before its decimal rendering. */
  lemma ParseNegativeDecimal(n: nat)
    ensures ParseInt("-" + ToDecimal(n)) == Some(-(n as int))
  {
    var d := ToDecimal(n);
    var s := "-" + d;
    assert s[0] == '-' && !IsJsSpace(s[0]);
    assert TrimStart(s) == s;
    assert s[1..] == d;
    assert d + [] == d;
    LeadingDigitsOfPrefix(d, []);
    assert LeadingDigits(s[1..]) == d;
    DigitsOfDecimal(n);
    assert DigitsValue(d) == n;
  }
}
